/** Long division: the rounds for every digit, when they end with the quotient, and
    division with signs. */
module LongQuotient {
  import opened Limbs
  import opened Bignum
  import opened Division
  import opened LongDivision

  const ROUNDS := 256

  // ---- when the rounds for a digit are enough ---------------------------------

  /** How often n is taken from r one at a time until less than m is left. */
  function Singles(r: nat, n: nat, m: nat): nat {
    if r < m || n == 0 then 0 else (r - m) / n + 1
  }

  lemma SinglesBefore(r: nat, n: nat, m: nat, g: nat)
    requires n > 0 && g < Singles(r, n, m)
    ensures m + g * n <= r
  {
    var k := (r - m) / n;
    assert r - m == k * n + (r - m) % n;
    MulMono(g, k, n);
  }

  lemma SinglesAfter(r: nat, n: nat, m: nat)
    requires 0 < n <= m
    ensures Singles(r, n, m) * n <= r < m + Singles(r, n, m) * n
  {
    if r >= m {
      var k := (r - m) / n;
      assert r - m == k * n + (r - m) % n;
      Distribute(k, 1, n);
    }
  }

  /** At most 256 rounds leave r below the divisor shifted by s limbs: as long as r
      has a limb more than it, a round takes it away once. */
  ghost predicate Finishes(r: nat, den: seq<Limb>, s: nat) {
    r < Pow(|den| + s) + 255 * (Val(den) * Pow(s)) || r < 257 * (Val(den) * Pow(s))
  }

  /** With no such limb left the leading limbs of r are at least 2^64 - 1 times those
      of the divisor, and the search for the digit does not end. */
  ghost predicate Hangs(r: nat, den: seq<Limb>, s: nat)
    requires |den| >= 2
  {
    var n := Val(den) * Pow(s);
    var u := Singles(r, n, Pow(|den| + s));
    u < ROUNDS && u * n + (B - 1) * (TopTwo(den) * Pow(|den| + s - 2)) <= r
  }

  function Remains(n: nat, d: nat): nat {
    if d == 0 then n else n % d
  }

  /** What is left of num when the digit at s is to be found. */
  ghost function RestAt(num: nat, den: seq<Limb>, s: nat): nat {
    Remains(num, Val(den) * Pow(s + 1))
  }

  /** The digit of the rest r is found. */
  ghost predicate Found(r: nat, den: seq<Limb>, s: nat)
    requires |den| >= 2
  {
    Finishes(r, den, s) && !Hangs(r, den, s)
  }

  /** Every digit is found. */
  ghost predicate Completes(num: seq<Limb>, den: seq<Limb>)
    requires |den| >= 2
  {
    forall s :: 0 <= s <= |num| - |den| ==> Found(RestAt(Val(num), den, s), den, s)
  }

  // ---- estimates before and after the limbs are aligned -------------------------

  /** n is the divisor shifted, m the power above all its limbs. */
  lemma ShiftedBounds(den: seq<Limb>, s: nat)
    requires Normal(den) && |den| >= 2
    ensures 0 < Val(den) * Pow(s) < Pow(|den| + s)
  {
    ValBound(den);
    NormalBound(den);
    PowPositive(|den| - 1);
    PowPositive(s);
    PowAdd(|den|, s);
    hide Val, Pow;
    MulMono(1, Val(den), Pow(s));
    MulMono(Val(den) + 1, Pow(|den|), Pow(s));
    Distribute(Val(den), 1, Pow(s));
  }

  lemma ShiftOnce(den: seq<Limb>, s: nat)
    ensures Val(den) * Pow(s + 1) == (Val(den) * Pow(s)) * B
  {
    assert Val(den) * (B * Pow(s)) == (Val(den) * Pow(s)) * B;
  }

  /** With one limb more than the shifted divisor the estimate is one. */
  lemma UnalignedEstimate(rem: seq<Limb>, den: seq<Limb>, s: nat)
    requires Normal(rem) && Normal(den) && |den| >= 2
    requires Pow(|den| + s) <= Val(rem) < Val(den) * Pow(s + 1)
    ensures rem != [] && Estimate(rem, den) == 1
  {
    UnalignedLength(rem, den, s);
    TopTwoBounds(rem);
    TopTwoBounds(den);
    TopIsPositive(den);
    PowAdd(|den| - 2, s + 1);
    hide Val, Pow, TopTwo;
    UnalignedAlgebra(Val(rem), Val(den), TopTwo(rem), TopTwo(den), Pow(|den| - 2), Pow(s + 1));
    OneAtMost(TopTwo(rem), TopTwo(den));
  }

  lemma OneAtMost(x: nat, y: nat)
    requires y > 0 && x <= y
    ensures x / y <= 1
  {
    if x == y { QuotientIs(x, 1, y, 0); } else { QuotientIs(x, 0, y, x); }
  }

  lemma UnalignedLength(rem: seq<Limb>, den: seq<Limb>, s: nat)
    requires Normal(rem) && Normal(den) && |den| >= 2
    requires Pow(|den| + s) <= Val(rem) < Val(den) * Pow(s + 1)
    ensures |rem| == |den| + s + 1
  {
    hide Val, Pow;
    ValBound(rem);
    if |rem| <= |den| + s { PowMono(|rem|, |den| + s); }
    if |rem| > |den| + s + 1 { LongerIsAbove(rem, den, s + 1); }
  }

  lemma UnalignedAlgebra(v: nat, d: nat, r: nat, t: nat, p: nat, q: nat)
    requires r * (p * q) <= v < d * q && d < (t + 1) * p
    ensures r <= t
  {
    MulMono(d, (t + 1) * p, q);
    assert (t + 1) * (p * q) == ((t + 1) * p) * q;
    MulBelow(r, t + 1, p * q);
  }

  lemma AlignedLength(rem: seq<Limb>, den: seq<Limb>, s: nat)
    requires Normal(rem) && Normal(den) && |den| >= 2
    requires Val(den) * Pow(s) <= Val(rem) < Pow(|den| + s)
    ensures |rem| == |den| + s
  {
    hide Val, Pow;
    if |rem| < |den| + s { ShorterIsBelow(rem, den, s); }
    if |rem| > |den| + s {
      NormalBound(rem);
      PowMono(|den| + s, |rem| - 1);
    }
  }

  /** Aligned, the estimate is the largest limb exactly when the leading limbs say so. */
  lemma LargestEstimate(rem: seq<Limb>, den: seq<Limb>, s: nat)
    requires Normal(rem) && Normal(den) && |den| >= 2 && |rem| == |den| + s
    ensures Estimate(rem, den) == B - 1 <==> (B - 1) * (TopTwo(den) * Pow(|den| + s - 2)) <= Val(rem)
  {
    TopTwoBounds(rem);
    TopIsPositive(den);
    PowPositive(|rem| - 2);
    hide Val, Pow, TopTwo;
    var k: nat, t, p := B - 1, TopTwo(den), Pow(|rem| - 2);
    assert k * (t * p) == (k * t) * p;
    if k * t <= TopTwo(rem) {
      DivAbove(TopTwo(rem), t, k);
      MulMono(k * t, TopTwo(rem), p);
    } else {
      DivLess(TopTwo(rem), k, t);
      MulMono(TopTwo(rem) + 1, k * t, p);
    }
  }

  /** What hangs is not below the shifted divisor. */
  lemma HangingIsAbove(v: nat, den: seq<Limb>, s: nat)
    requires Normal(den) && |den| >= 2 && (B - 1) * (TopTwo(den) * Pow(|den| + s - 2)) <= v
    ensures Val(den) * Pow(s) <= v
  {
    TopTwoBounds(den);
    TopIsPositive(den);
    PowAdd(|den| - 2, s);
    hide Val, Pow, TopTwo;
    HangingAlgebra(v, Val(den), TopTwo(den), Pow(|den| - 2), Pow(s));
  }

  lemma HangingAlgebra(v: nat, d: nat, t: nat, p: nat, q: nat)
    requires t >= 1 && d < (t + 1) * p && (B - 1) * (t * (p * q)) <= v
    ensures d * q <= v
  {
    MulMono(d, (t + 1) * p, q);
    assert ((t + 1) * p) * q == (t + 1) * (p * q);
    MulMono(t + 1, (B - 1) * t, p * q);
    Regroup(B - 1, t, p * q);
  }

  /** The divisors for which the search can hang begin with the limbs 1 and 0 or 1
      and 1. */
  lemma HangsOnlyFor(r: nat, den: seq<Limb>, s: nat)
    requires Normal(den) && |den| >= 2 && Hangs(r, den, s)
    ensures TopTwo(den) == B || TopTwo(den) == B + 1
  {
    ShiftedBounds(den, s);
    PowSquare(|den| + s);
    TopTwoIsLarge(den);
    hide Val, Pow, TopTwo;
    var n, m, p := Val(den) * Pow(s), Pow(|den| + s), Pow(|den| + s - 2);
    SinglesAfter(r, n, m);
    HangAlgebra(TopTwo(den), p);
  }

  lemma PowSquare(k: nat)
    requires k >= 2
    ensures Pow(k) == (B * B) * Pow(k - 2) && Pow(k - 2) >= 1
  {
    PowPositive(k - 2);
    assert Pow(k) == B * (B * Pow(k - 2));
  }

  lemma TopTwoIsLarge(den: seq<Limb>)
    requires Normal(den) && |den| >= 2
    ensures TopTwo(den) >= B
  {
    MulMono(1, den[|den| - 1], B);
  }

  lemma HangAlgebra(t: nat, p: nat)
    requires p >= 1 && (B - 1) * (t * p) < (B * B) * p
    ensures t <= B + 1
  {
    Regroup(B - 1, t, p);
    MulBelow((B - 1) * t, B * B, p);
  }

  // ---- the rounds for one digit -------------------------------------------------

  /** After g rounds either g single divisors are gone from r, or v, what is left, is
      less than one and the digit is found. */
  ghost predicate Phase(r: nat, v: nat, taken: nat, g: nat, den: seq<Limb>, s: nat)
    requires |den| >= 2
  {
    || (taken == g && g <= Singles(r, Val(den) * Pow(s), Pow(|den| + s)))
    || (v < Val(den) * Pow(s) && Found(r, den, s))
  }

  /** What a round finds and what it leaves. */
  ghost predicate RoundIs(rem: seq<Limb>, den: seq<Limb>, s: nat, round: Round, digit: Limb, after: nat) {
    && (round.Below? <==> Val(rem) < Val(den) * Pow(s))
    && (!round.Below? ==> rem != [] && den != [] && (round.Stuck? <==> Estimate(rem, den) == B - 1))
    && (round.Taken? ==> digit >= 1 && IsDigit(rem, den, s, Estimate(rem, den), digit))
    && (!round.Taken? ==> digit == 0)
    && after + (Val(den) * digit) * Pow(s) == Val(rem)
  }

  /** A round while r has a limb too many takes one divisor. */
  lemma SingleRound(rem: seq<Limb>, den: seq<Limb>, s: nat, round: Round, digit: Limb, after: nat)
    requires Normal(rem) && Normal(den) && |den| >= 2 && RoundIs(rem, den, s, round, digit, after)
    requires Pow(|den| + s) <= Val(rem) < Val(den) * Pow(s + 1)
    ensures round.Taken? && digit == 1
  {
    ShiftedBounds(den, s);
    UnalignedEstimate(rem, den, s);
    hide Val, Pow, Estimate;
  }

  /** A round after that hangs, or leaves less than one divisor. */
  lemma LastRound(rem: seq<Limb>, den: seq<Limb>, s: nat, round: Round, digit: Limb, after: nat)
    requires Normal(rem) && Normal(den) && |den| >= 2 && RoundIs(rem, den, s, round, digit, after)
    requires Val(rem) < Pow(|den| + s)
    ensures round.Stuck? <==> (B - 1) * (TopTwo(den) * Pow(|den| + s - 2)) <= Val(rem)
    ensures !round.Stuck? ==> after < Val(den) * Pow(s)
  {
    hide Val, Pow, Estimate, TopTwo, IsDigit;
    if Val(rem) < Val(den) * Pow(s) {
      if (B - 1) * (TopTwo(den) * Pow(|den| + s - 2)) <= Val(rem) { HangingIsAbove(Val(rem), den, s); }
      NoneTaken(Val(den), Pow(s), 0);
    } else {
      AlignedLength(rem, den, s);
      LargestEstimate(rem, den, s);
      if round.Taken? { DigitIsExact(rem, den, s, digit, after); }
    }
  }

  lemma FinishesAfter(r: nat, u: nat, n: nat, m: nat)
    requires u < ROUNDS && r < m + u * n
    ensures r < m + 255 * n
  {
    MulMono(u, 255, n);
  }

  /** After the last round the digit is found unless the search hangs. */
  lemma LastDecides(r: nat, v: nat, den: seq<Limb>, s: nat)
    requires Normal(den) && |den| >= 2
    requires v + Singles(r, Val(den) * Pow(s), Pow(|den| + s)) * (Val(den) * Pow(s)) == r
    requires Singles(r, Val(den) * Pow(s), Pow(|den| + s)) < ROUNDS
    ensures v < Pow(|den| + s)
    ensures Found(r, den, s) <==> v < (B - 1) * (TopTwo(den) * Pow(|den| + s - 2))
  {
    ShiftedBounds(den, s);
    hide Val, Pow, TopTwo, Singles;
    var n, m := Val(den) * Pow(s), Pow(|den| + s);
    SinglesAfter(r, n, m);
    FinishesAfter(r, Singles(r, n, m), n, m);
  }

  /** One round, on numbers: v is left of r after g of them. */
  lemma RoundPhase(r: nat, taken: nat, g: nat, rem: seq<Limb>, den: seq<Limb>, s: nat, round: Round, digit: Limb, after: nat)
    requires Normal(rem) && Normal(den) && |den| >= 2 && RoundIs(rem, den, s, round, digit, after)
    requires Val(rem) + taken * (Val(den) * Pow(s)) == r < Val(den) * Pow(s + 1) && g < ROUNDS
    requires Phase(r, Val(rem), taken, g, den, s)
    ensures round.Below? ==> Found(r, den, s)
    ensures round.Stuck? ==> !Found(r, den, s)
    ensures round.Taken? ==> Phase(r, after, taken + digit, g + 1, den, s)
  {
    ShiftedBounds(den, s);
    hide Val, Pow, TopTwo, Singles, Found, Estimate, IsDigit;
    var n, m := Val(den) * Pow(s), Pow(|den| + s);
    if taken == g && g < Singles(r, n, m) {
      SinglesBefore(r, n, m, g);
      TakenFits(Val(rem), taken, n, r);
      SingleRound(rem, den, s, round, digit, after);
    } else if taken == g && g == Singles(r, n, m) {
      LastDecides(r, Val(rem), den, s);
      LastRound(rem, den, s, round, digit, after);
    }
  }

  lemma TakenFits(v: nat, taken: nat, n: nat, r: nat)
    requires v + taken * n == r
    ensures v <= r
  {
  }

  /** After 256 rounds the digit is found exactly when less than one divisor is left. */
  lemma RoundsUp(r: nat, v: nat, taken: nat, den: seq<Limb>, s: nat)
    requires Normal(den) && |den| >= 2 && Phase(r, v, taken, ROUNDS, den, s)
    requires v + taken * (Val(den) * Pow(s)) == r
    ensures v < Val(den) * Pow(s) <==> Found(r, den, s)
  {
    ShiftedBounds(den, s);
    hide Val, Pow, TopTwo, Singles;
    var n, m := Val(den) * Pow(s), Pow(|den| + s);
    if taken == ROUNDS && ROUNDS <= Singles(r, n, m) {
      SinglesBefore(r, n, m, 255);
    }
  }

  /** Finds the digit at s in at most 256 rounds.  When the remainder was below the
      divisor shifted by one limb more, the digit is found exactly under the
      condition.  `taken` counts the divisors taken away and `lost` how often the limb
      of the quotient wrapped. */
  method DivideAt(rem: array<Limb>, rl: nat, den: seq<Limb>, q: array<Limb>, s: nat)
    returns (stuck: bool, len: nat, ghost taken: nat, ghost lost: nat)
    requires rl <= rem.Length && Normal(rem[..rl]) && Normal(den) && |den| >= 2 && s < q.Length && q != rem
    modifies rem, q
    ensures len <= rl && Normal(rem[..len])
    ensures q[..] == old(q[..])[s := q[s]]
    ensures Val(rem[..len]) + taken * (Val(den) * Pow(s)) == old(Val(rem[..rl]))
    ensures q[s] + lost * B == old(q[s]) + taken
    ensures old(Val(rem[..rl])) < Val(den) * Pow(s + 1) ==>
              (!stuck && Val(rem[..len]) < Val(den) * Pow(s) <==> Found(old(Val(rem[..rl])), den, s))
  {
    hide Val, Pow, Found, Singles, Estimate, IsDigit, Phase;
    stuck, len, taken, lost := false, rl, 0, 0;
    ghost var r, q0, n := Val(rem[..rl]), q[..], Val(den) * Pow(s);
    PhaseStarts(r, den, s);
    NoLimb(n);
    NoLimb(B);
    var g := 0;
    while g < ROUNDS
      invariant 0 <= g <= ROUNDS && len <= rl && Normal(rem[..len])
      invariant q[..] == q0[s := q[s]]
      invariant Val(rem[..len]) + taken * n == r && q[s] + lost * B == q0[s] + taken
      invariant r < Val(den) * Pow(s + 1) ==> Phase(r, Val(rem[..len]), taken, g, den, s)
    {
      ghost var before, t0 := rem[..len], taken;
      var round, l1, digit := DivideRound(rem, len, den, q, s);
      ghost var after := Val(rem[..l1]);
      assert RoundIs(before, den, s, round, digit, after);
      if r < Val(den) * Pow(s + 1) {
        RoundPhase(r, taken, g, before, den, s, round, digit, after);
      }
      TakenMore(after, digit, Val(den), Pow(s), taken, r);
      ghost var x := q0[s] + taken - lost * B + digit;
      taken := taken + digit;
      len := l1;
      if round.Below? { return; }
      if round.Stuck? { stuck := true; return; }
      lost := lost + x / B;
      g := g + 1;
    }
    if r < Val(den) * Pow(s + 1) {
      RoundsUp(r, Val(rem[..len]), taken, den, s);
    }
  }

  lemma PhaseStarts(r: nat, den: seq<Limb>, s: nat)
    requires |den| >= 2
    ensures Phase(r, r, 0, 0, den, s)
  {
  }

  lemma TakenMore(after: nat, digit: nat, den: nat, p: nat, taken: nat, r: nat)
    requires after + (den * digit) * p + taken * (den * p) == r
    ensures after + (taken + digit) * (den * p) == r
  {
    Distribute(taken, digit, den * p);
    assert (den * digit) * p == digit * (den * p);
  }

  // ---- all digits -----------------------------------------------------------------

  /** Every digit from s on was found, and v is the rest for the next. */
  ghost predicate Standing(num: seq<Limb>, den: seq<Limb>, q: nat, v: nat, s: nat)
    requires |den| >= 2
  {
    && q * Val(den) + v == Val(num) && v == Remains(Val(num), Val(den) * Pow(s))
    && forall t :: s <= t <= |num| - |den| ==> Found(RestAt(Val(num), den, t), den, t)
  }

  /** A digit was not found: too much is left for the digits below s, or limbs of the
      quotient were lost. */
  ghost predicate Doomed(num: seq<Limb>, den: seq<Limb>, q: nat, v: nat, s: nat)
    requires |den| >= 2
  {
    && !Completes(num, den) && q * Val(den) + v <= Val(num)
    && (v >= Val(den) * Pow(s) || q * Val(den) + v + Val(den) <= Val(num))
  }

  lemma StandsAtFirst(num: seq<Limb>, den: seq<Limb>, q: seq<Limb>)
    requires Normal(den) && 2 <= |den| <= |num| && forall k :: 0 <= k < |q| ==> q[k] == 0
    ensures Standing(num, den, Val(q), Val(num), |num| - |den| + 1)
  {
    ValZeros(q, 0);
    assert q[..0] == [];
    hide Val, Pow;
    NoValue([], []);
    ShorterIsBelow(num, den, |num| - |den| + 1);
    RemainsIs(Val(num), 0, Val(den) * Pow(|num| - |den| + 1), Val(num));
  }

  lemma RemainsIs(n: nat, k: nat, d: nat, v: nat)
    requires n == k * d + v && v < d
    ensures Remains(n, d) == v
  {
    QuotientIs(n, k, d, v);
  }

  lemma RemainsTwice(n: nat, d: nat, r: nat, taken: nat, v: nat)
    requires d > 0 && r == Remains(n, d * B) && v + taken * d == r && v < d
    ensures Remains(n, d) == v
  {
    var k := n / (d * B);
    assert n == k * (d * B) + r;
    assert k * (d * B) == (k * B) * d;
    Distribute(k * B, taken, d);
    RemainsIs(n, k * B + taken, d, v);
  }

  lemma RemainsBelow(n: nat, d: nat)
    requires d > 0
    ensures Remains(n, d) < d
  {
  }

  /** The digit at s of the quotient, on numbers: x was there, y is there now. */
  lemma QuotientMoves(q: seq<Limb>, s: nat, y: Limb, d: nat, v: nat, taken: nat, lost: nat, r: nat)
    requires s < |q| && v + taken * (d * Pow(s)) == r && y + lost * B == q[s] + taken
    ensures Val(q[s := y]) * d + v + lost * (B * (d * Pow(s))) == Val(q) * d + r
  {
    ValUpdate(q, s, y);
    hide Val;
    MovesAlgebra(Val(q), y - q[s], taken, lost, d, Pow(s));
  }

  lemma MovesAlgebra(q: int, x: int, taken: int, lost: int, d: int, p: int)
    requires x + lost * B == taken
    ensures (q + x * p) * d + lost * (B * (d * p)) == q * d + taken * (d * p)
  {
    Distribute(q, x * p, d);
    assert (x * p) * d == x * (d * p);
    assert lost * (B * (d * p)) == (lost * B) * (d * p);
    Distribute(x, lost * B, d * p);
  }

  /** A wrapped limb takes at least the divisor away from what the results stand for. */
  lemma LostIsMuch(lost: nat, d: nat, p: nat)
    requires p >= 1
    ensures lost > 0 ==> lost * (B * (d * p)) >= d
    ensures lost == 0 ==> lost * (B * (d * p)) == 0
  {
    if lost > 0 {
      MulMono(1, lost, B * (d * p));
      MulMono(1, p, d);
      assert p * d == d * p;
      MulMono(1, B, d * p);
    }
  }

  /** One limb cannot take a rest away that was too large for the limb above. */
  lemma StillTooLarge(v: nat, n: nat, taken: nat, r: nat)
    requires v + taken * n == r && r >= n * B && taken < B
    ensures v >= n
  {
    MulMono(taken, B - 1, n);
    assert (B - 1) * n == n * B - n;
  }

  lemma TakenIsLimb(v: nat, n: nat, taken: nat, r: nat)
    requires v + taken * n == r < n * B
    ensures taken < B
  {
    assert n * B == B * n;
    MulBelow(taken, B, n);
  }

  /** How the digit at s moves the state, when it was found and when it was not. */
  lemma DigitMoves(num: seq<Limb>, den: seq<Limb>, q: seq<Limb>, r: nat, s: nat,
                   y: Limb, v: nat, taken: nat, lost: nat, stuck: bool)
    requires Normal(den) && 2 <= |den| <= |num| && s < |q| == |num| - |den| + 1 && q[s] == 0
    requires v + taken * (Val(den) * Pow(s)) == r && y + lost * B == taken
    requires r < Val(den) * Pow(s + 1) ==> (!stuck && v < Val(den) * Pow(s) <==> Found(r, den, s))
    requires Standing(num, den, Val(q), r, s + 1) || Doomed(num, den, Val(q), r, s + 1)
    ensures stuck ==> !Completes(num, den)
    ensures !stuck ==> Standing(num, den, Val(q[s := y]), v, s) || Doomed(num, den, Val(q[s := y]), v, s)
  {
    QuotientMoves(q, s, y, Val(den), v, taken, lost, r);
    PowPositive(s);
    LostIsMuch(lost, Val(den), Pow(s));
    ShiftOnce(den, s);
    ShiftedBounds(den, s);
    hide Val, Pow, Found;
    var n := Val(den) * Pow(s);
    if Standing(num, den, Val(q), r, s + 1) {
      RemainsBelow(Val(num), n * B);
      TakenIsLimb(v, n, taken, r);
      assert lost == 0;
      assert r == RestAt(Val(num), den, s);
      if !stuck && v < n {
        RemainsTwice(Val(num), n, r, taken, v);
        assert Standing(num, den, Val(q[s := y]), v, s);
      }
    } else if lost == 0 && r >= n * B {
      StillTooLarge(v, n, taken, r);
    }
  }

  /** The two loops over digits and rounds.  They end with quotient and remainder
      exactly when every digit is found; otherwise the search hangs, or the quotient
      comes out too small. */
  method DivideLong(num: seq<Limb>, den: seq<Limb>) returns (stuck: bool, quot: seq<Limb>, r: seq<Limb>)
    requires Normal(num) && Normal(den) && 2 <= |den| <= |num|
    ensures !stuck ==> Normal(quot) && Normal(r)
    ensures Completes(num, den) ==>
              !stuck && Val(num) == Val(quot) * Val(den) + Val(r) && Val(r) < Val(den)
    ensures !Completes(num, den) && !stuck ==> (Val(quot) + 1) * Val(den) <= Val(num)
  {
    hide Val, Pow, Found, Completes, Standing, Doomed;
    var rem := new Limb[|num|](_ => 0);
    CopyLimbs(rem, num);
    var rl := |num|;
    var maxQ := |num| - |den| + 1;
    var q := new Limb[maxQ](_ => 0);
    StandsAtFirst(num, den, q[..]);
    var s := maxQ;
    while s > 0
      invariant 0 <= s <= maxQ == q.Length && 0 <= rl <= rem.Length && Normal(rem[..rl])
      invariant forall k :: 0 <= k < s ==> q[k] == 0
      invariant Standing(num, den, Val(q[..]), Val(rem[..rl]), s) || Doomed(num, den, Val(q[..]), Val(rem[..rl]), s)
    {
      s := s - 1;
      ghost var q0, r0 := q[..], Val(rem[..rl]);
      var hung, l1;
      ghost var taken, lost;
      hung, l1, taken, lost := DivideAt(rem, rl, den, q, s);
      DigitMoves(num, den, q0, r0, s, q[s], Val(rem[..l1]), taken, lost, hung);
      rl := l1;
      if hung { return true, [], []; }
      forall k | 0 <= k < s ensures q[k] == 0 { assert q[..][k] == q0[k]; }
    }
    assert q[..maxQ] == q[..];
    DivisionEnds(num, den, Val(q[..]), Val(rem[..rl]));
    var ql := NormalizeLimbs(q, maxQ);
    quot, r := q[..ql], rem[..rl];
    stuck := false;
  }

  lemma DivisionEnds(num: seq<Limb>, den: seq<Limb>, q: nat, v: nat)
    requires Normal(den) && |den| >= 2
    requires Standing(num, den, q, v, 0) || Doomed(num, den, q, v, 0)
    ensures Completes(num, den) ==> Val(num) == q * Val(den) + v && v < Val(den)
    ensures !Completes(num, den) ==> (q + 1) * Val(den) <= Val(num)
  {
    ShiftedBounds(den, 0);
    hide Val, Found;
    assert Val(den) * Pow(0) == Val(den);
    Distribute(q, 1, Val(den));
    if Standing(num, den, q, v, 0) {
      assert forall t :: 0 <= t <= |num| - |den| ==> Found(RestAt(Val(num), den, t), den, t);
      RemainsBelow(Val(num), Val(den));
    }
  }

  // ---- every path, and signs --------------------------------------------------------

  datatype Outcome = ByZero | Divided | Hung

  /** What the numbers must meet for division to be right: on the long path every
      digit is found. */
  ghost predicate Divides(num: seq<Limb>, den: seq<Limb>) {
    NeedsLong(num, den) ==> Completes(num, den)
  }

  lemma LongIsLonger(num: seq<Limb>, den: seq<Limb>)
    requires Normal(num) && Normal(den) && Val(den) <= Val(num)
    ensures |den| <= |num|
  {
    if |den| > |num| { LongerIsLarger(den, num); }
  }

  /** Quotient and remainder of magnitudes are right exactly when the numbers meet
      the condition; otherwise the division hangs or the quotient is too small. */
  method DivMag(num: seq<Limb>, den: seq<Limb>) returns (out: Outcome, q: seq<Limb>, r: seq<Limb>)
    requires Normal(num) && Normal(den)
    ensures out.ByZero? <==> Val(den) == 0
    ensures out.Divided? ==> Normal(q) && Normal(r)
    ensures Val(den) != 0 && Divides(num, den) ==>
              out.Divided? && Val(num) == Val(q) * Val(den) + Val(r) && Val(r) < Val(den)
    ensures out.Divided? && !Divides(num, den) ==> (Val(q) + 1) * Val(den) <= Val(num)
  {
    hide Val, Completes;
    var path;
    path, q, r := DivShort(num, den);
    match path
    case ByZero => out := Outcome.ByZero;
    case Short => out := Divided;
    case Long =>
      LongIsLonger(num, den);
      var stuck;
      stuck, q, r := DivideLong(num, den);
      out := if stuck then Hung else Divided;
  }

  /** The numbers are divided as they should be. */
  ghost predicate Meets(a: Num, b: Num)
    requires Ok(a) && Ok(b)
  {
    Divides(Mag(a), Mag(b))
  }

  /** Quotient and remainder round toward zero and come in canonical form.  The
      quotient is right exactly when the division ends and the numbers meet the
      condition, and then the remainder is right too. */
  method SignedDiv(a: Num, b: Num) returns (out: Outcome, q: Num, r: Num)
    requires Ok(a) && Ok(b)
    ensures out.ByZero? <==> IntOf(b) == 0
    ensures Canonical(q) && Canonical(r)
    ensures IntOf(b) != 0 ==> (out.Divided? && IntOf(q) == Quot(IntOf(a), IntOf(b)) <==> Meets(a, b))
    ensures IntOf(b) != 0 && Meets(a, b) ==> IntOf(r) == Rem(IntOf(a), IntOf(b))
  {
    hide Val, Divides;
    ViewIs(a);
    ViewIs(b);
    AbsOfView(a);
    AbsOfView(b);
    q, r := Fix(0), Fix(0);
    var x, y;
    out, x, y := DivMag(Mag(a), Mag(b));
    if out != Divided { return; }
    EmptyIsZero(x);
    EmptyIsZero(y);
    if |x| != 0 {
      q := FromLimbs(x, Positive(a) == Positive(b));
    }
    if |y| != 0 {
      r := FromLimbs(y, Positive(a));
    }
    QuotientRight(Val(Mag(a)), Val(Mag(b)), Val(x), Val(y));
  }

  lemma QuotientRight(n: nat, d: nat, q: nat, r: nat)
    requires d > 0
    ensures n == q * d + r && r < d ==> q == DivNat(n, d) && r == ModNat(n, d)
    ensures (q + 1) * d <= n ==> q < DivNat(n, d)
  {
    if n == q * d + r && r < d { QuotientIs(n, q, d, r); }
    if (q + 1) * d <= n {
      var k := n / d;
      assert n == k * d + n % d;
      Distribute(k, 1, d);
      MulBelow(q + 1, k + 1, d);
    }
  }

  // ---- divisions that end well and that do not ---------------------------------------

  /** Small quotients by a divisor that does not begin with the limbs 1 and 0 or 1
      and 1 come out right. */
  lemma SmallQuotientsComplete(num: seq<Limb>, den: seq<Limb>)
    requires Normal(den) && |den| >= 2 && Val(num) < 257 * Val(den) && TopTwo(den) > B + 1
    ensures Completes(num, den)
  {
    hide Val, Pow, TopTwo, Hangs;
    forall s | 0 <= s <= |num| - |den| ensures Found(RestAt(Val(num), den, s), den, s) {
      var r := RestAt(Val(num), den, s);
      RemainsAtMost(Val(num), Val(den) * Pow(s + 1));
      PowPositive(s);
      MulMono(1, Pow(s), Val(den));
      assert Pow(s) * Val(den) == Val(den) * Pow(s);
      if Hangs(r, den, s) { HangsOnlyFor(r, den, s); }
    }
  }

  lemma RemainsAtMost(n: nat, d: nat)
    ensures Remains(n, d) <= n
  {
    if d > 0 { assert n == (n / d) * d + n % d; }
  }

  lemma TwoLimbValue(x: Limb, y: Limb)
    ensures Val([x, y]) == x + y * B
  {
    assert [x, y] == [x] + [y];
    ValSnoc([x], y);
    One(x);
    assert Pow(1) == B * Pow(0);
  }

  lemma OddIsNoPower(den: seq<Limb>)
    requires Normal(den) && |den| >= 2 && den[0] != 0
    ensures !IsPowerOfTwo(Val(den))
  {
    if IsPowerOfTwo(Val(den)) { PowerHasOneLimb(den); }
  }

  /** 2^128 - 1 divided by 2^64 + 1, which goes 2^64 - 1 times: the search hangs. */
  lemma DivisionHangs()
    ensures NeedsLong([B - 1, B - 1], [1, 1]) && Hangs(Val([B - 1, B - 1]), [1, 1], 0)
    ensures !Divides([B - 1, B - 1], [1, 1])
  {
    var num: seq<Limb>, den: seq<Limb> := [B - 1, B - 1], [1, 1];
    OddIsNoPower(den);
    TwoLimbValue(B - 1, B - 1);
    TwoLimbValue(1, 1);
    FirstRest(num, den);
    hide Val, Found;
    assert Pow(2) == B * B && Pow(0) == 1 by { assert Pow(1) == B * Pow(0) && Pow(2) == B * Pow(1); }
    assert Singles(Val(num), Val(den) * Pow(0), Pow(2)) == 0;
    assert TopTwo(den) == B + 1;
    assert !Found(RestAt(Val(num), den, 0), den, 0) by { assert Hangs(Val(num), den, 0); }
  }

  lemma FirstRest(num: seq<Limb>, den: seq<Limb>)
    requires Val(num) < Val(den) * Pow(1)
    ensures RestAt(Val(num), den, 0) == Val(num)
  {
    RemainsIs(Val(num), 0, Val(den) * Pow(1), Val(num));
  }

  /** 2^136 divided by 2^127 + 1 goes 511 times: after 256 rounds the quotient is 256. */
  lemma DivisionStopsShort()
    ensures NeedsLong([0, 0, 256], [1, 0x8000_0000_0000_0000])
    ensures !Finishes(RestAt(Val([0, 0, 256]), [1, 0x8000_0000_0000_0000], 0), [1, 0x8000_0000_0000_0000], 0)
    ensures !Divides([0, 0, 256], [1, 0x8000_0000_0000_0000])
  {
    var num: seq<Limb>, den: seq<Limb> := [0, 0, 256], [1, 0x8000_0000_0000_0000];
    OddIsNoPower(den);
    TwoLimbValue(0, 0);
    TwoLimbValue(1, 0x8000_0000_0000_0000);
    assert num == [0, 0] + [256];
    ValSnoc([0, 0], 256);
    assert Pow(2) == B * B && Pow(1) == B && Pow(0) == 1 by { assert Pow(1) == B * Pow(0) && Pow(2) == B * Pow(1); }
    hide Val, Pow;
    FirstRest(num, den);
    assert !Finishes(Val(num), den, 0);
    assert !Found(RestAt(Val(num), den, 0), den, 0);
  }
}
