/** One round of long division: compare, estimate a digit, search for it, and
    take that many times the divisor away. */
module LongDivision {
  import opened Limbs
  import opened Division

  /** k times the divisor; carries stay within a limb. */
  method MulScalar(den: seq<Limb>, k: Limb) returns (prod: seq<Limb>)
    ensures Normal(prod) && Val(prod) == Val(den) * k
  {
    hide Val, Pow;
    var work := new Limb[|den| + 1](_ => 0);
    var carry, i := 0, 0;
    NoValue(den, den);
    assert work[..0] == [];
    ScalarStarts(Val(den[..0]), k);
    while i < |den|
      invariant 0 <= i <= |den| && 0 <= carry < B && work.Length == |den| + 1 && work[|den|] == 0
      invariant Val(work[..i]) + carry * Pow(i) == Val(den[..i]) * k
    {
      var p := den[i] * k + carry;
      ProductFits(den[i], k, 0, carry);
      ghost var was := work[..i];
      work[i] := p % B;
      assert work[..i] == was;
      assert work[..][..i] == was && work[..][..i + 1] == work[..i + 1];
      ScalarStep(work[..], den, i, k, carry, p);
      carry := p / B;
      i := i + 1;
    }
    assert den[..i] == den;
    var len := |den|;
    if carry > 0 {
      ghost var was := work[..len];
      work[len] := carry;
      assert work[..len + 1] == was + [carry];
      ValSnoc(was, carry);
      len := len + 1;
    } else {
      NoLimb(Pow(len));
    }
    len := NormalizeLimbs(work, len);
    prod := work[..len];
  }

  lemma ScalarStarts(v: nat, k: nat)
    requires v == 0
    ensures v * k == 0 && 0 * Pow(0) == 0
  {
  }

  lemma ScalarStep(work: seq<Limb>, den: seq<Limb>, i: nat, k: nat, carry: nat, p: nat)
    requires i < |work| && i < |den| && p == den[i] * k + carry && work[i] == p % B
    requires Val(work[..i]) + carry * Pow(i) == Val(den[..i]) * k
    ensures Val(work[..i + 1]) + (p / B) * Pow(i + 1) == Val(den[..i + 1]) * k
  {
    ValTake(work, i);
    ValTake(den, i);
    assert Pow(i + 1) == B * Pow(i);
    hide Val, Pow;
    assert p == p % B + B * (p / B);
    CarryStep(p, work[i], p / B, Pow(i));
    ScalarAlgebra(Val(den[..i]), den[i], k, carry, Pow(i));
  }

  lemma ScalarAlgebra(v: int, d: int, k: int, carry: int, q: int)
    ensures (d * k + carry) * q + v * k == (v + d * q) * k + carry * q
  {
    Distribute(d * k, carry, q);
    Distribute(v, d * q, k);
    Regroup(d, k, q);
    Swap(k, q);
    Regroup(d, q, k);
  }

  // ---- comparing with a shifted divisor ---------------------------------------

  lemma UpperLimbs(rem: seq<Limb>, s: nat)
    requires s <= |rem|
    ensures Val(rem) == Val(rem[..s]) + Val(rem[s..]) * Pow(s) && Val(rem[..s]) < Pow(s)
  {
    assert rem == rem[..s] + rem[s..];
    ValAppend(rem[..s], rem[s..]);
    ValBound(rem[..s]);
  }

  lemma ShiftedOrder(low: nat, hi: nat, d: nat, p: nat)
    requires low < p
    ensures low + hi * p < d * p <==> hi < d
  {
    if hi < d {
      MulMono(hi + 1, d, p);
      Distribute(hi, 1, p);
    } else {
      MulMono(d, hi, p);
    }
  }

  /** Negative exactly when the remainder is below the divisor shifted by s limbs. */
  method CmpShifted(rem: seq<Limb>, den: seq<Limb>, s: nat) returns (c: int)
    requires Normal(rem) && Normal(den) && (den == [] ==> s <= |rem|)
    ensures c < 0 <==> Val(rem) < Val(den) * Pow(s)
  {
    hide Val, Pow;
    var need := |den| + s;
    if |rem| < need {
      ShorterIsBelow(rem, den, s);
      return -1;
    }
    if |rem| > need {
      LongerIsAbove(rem, den, s);
      return 1;
    }
    UpperLimbs(rem, s);
    assert den != [] ==> rem[s..][|den| - 1] == rem[|rem| - 1];
    c := CmpMag(rem[s..], den);
    ShiftedOrder(Val(rem[..s]), Val(rem[s..]), Val(den), Pow(s));
  }

  lemma ShorterIsBelow(rem: seq<Limb>, den: seq<Limb>, s: nat)
    requires Normal(den) && den != [] && |rem| < |den| + s
    ensures Val(rem) < Val(den) * Pow(s)
  {
    hide Val, Pow;
    ValBound(rem);
    NormalBound(den);
    PowMono(|rem|, |den| - 1 + s);
    PowAdd(|den| - 1, s);
    MulMono(Pow(|den| - 1), Val(den), Pow(s));
  }

  lemma LongerIsAbove(rem: seq<Limb>, den: seq<Limb>, s: nat)
    requires Normal(rem) && |rem| > |den| + s
    ensures Val(rem) >= Val(den) * Pow(s)
  {
    hide Val, Pow;
    NormalBound(rem);
    ValBound(den);
    PowMono(|den| + s, |rem| - 1);
    PowAdd(|den|, s);
    MulMono(Val(den), Pow(|den|), Pow(s));
  }

  // ---- the estimate -----------------------------------------------------------

  function TopTwo(a: seq<Limb>): nat
    requires a != []
  {
    if |a| >= 2 then a[|a| - 1] * B + a[|a| - 2] else a[|a| - 1]
  }

  /** The quotient of the two leading limbs of each, at least 1, at most a limb. */
  function Estimate(rem: seq<Limb>, den: seq<Limb>): Limb
    requires rem != [] && den != []
  {
    if TopTwo(den) == 0 then 1
    else
      var q := TopTwo(rem) / TopTwo(den);
      if q == 0 then 1 else if q > B - 1 then B - 1 else q
  }

  lemma TopTwoBounds(a: seq<Limb>)
    requires |a| >= 2
    ensures TopTwo(a) * Pow(|a| - 2) <= Val(a) < (TopTwo(a) + 1) * Pow(|a| - 2)
  {
    var n := |a| - 2;
    ValBound(a[..n]);
    ValTake(a, n);
    ValTake(a, n + 1);
    assert a[..n + 2] == a;
    hide Val;
    TopAlgebra(Val(a[..n]), a[n], a[n + 1], Pow(n));
  }

  lemma TopAlgebra(low: nat, x: nat, y: nat, p: nat)
    requires low < p
    ensures (y * B + x) * p <= low + x * p + y * (B * p) < (y * B + x + 1) * p
  {
    assert y * (B * p) == (y * B) * p;
    Distribute(y * B, x, p);
    Distribute(y * B + x, 1, p);
  }

  /** When the remainder has exactly as many limbs as the shifted divisor, the
      estimate is not below the true digit. */
  lemma EstimateIsAbove(rem: seq<Limb>, den: seq<Limb>, s: nat, k: Limb)
    requires Normal(rem) && Normal(den) && |den| >= 2 && |rem| == |den| + s
    requires (Val(den) * k) * Pow(s) <= Val(rem)
    ensures k <= Estimate(rem, den)
  {
    hide Val, Pow;
    TopTwoBounds(rem);
    TopTwoBounds(den);
    PowAdd(|den| - 2, s);
    PowPositive(|rem| - 2);
    TopIsPositive(den);
    DigitAlgebra(Val(rem), Val(den), k, Pow(s), TopTwo(rem), TopTwo(den), Pow(|den| - 2), Pow(|rem| - 2));
    DivAbove(TopTwo(rem), TopTwo(den), k);
  }

  lemma TopIsPositive(den: seq<Limb>)
    requires Normal(den) && |den| >= 2
    ensures TopTwo(den) > 0
  {
    MulMono(1, den[|den| - 1], B);
  }

  lemma DivAbove(r: nat, d: nat, k: nat)
    requires d > 0 && k * d <= r
    ensures k <= r / d
  {
    Distribute(r / d, 1, d);
    assert r == (r / d) * d + r % d;
    if r / d < k { MulMono(r / d + 1, k, d); }
  }

  lemma DigitAlgebra(rem: nat, den: nat, k: nat, p: nat, r: nat, d: nat, pd: nat, pr: nat)
    requires rem < (r + 1) * pr && d * pd <= den && (den * k) * p <= rem && pr == pd * p && pr >= 1
    ensures k * d <= r
  {
    MulMono(d * pd, den, k * p);
    Regroup(den, k, p);
    DigitRegroup(d, pd, k, p);
    MulBelow(k * d, r + 1, pr);
  }

  lemma DigitRegroup(d: int, pd: int, k: int, p: int)
    ensures (d * pd) * (k * p) == (k * d) * (pd * p)
  {
    Regroup(d, pd, k * p);
    Regroup(pd, k, p);
    Swap(pd, k);
    Regroup(k, pd, p);
    Regroup(d, k, pd * p);
    Swap(d, k);
  }

  lemma MulBelow(x: nat, y: nat, p: nat)
    requires x * p < y * p
    ensures x < y
  {
    if y <= x { MulMono(y, x, p); }
  }

  // ---- the search -------------------------------------------------------------

  predicate Takes(rem: seq<Limb>, den: seq<Limb>, s: nat, k: nat) {
    (Val(den) * k) * Pow(s) <= Val(rem)
  }

  lemma TakesLess(rem: seq<Limb>, den: seq<Limb>, s: nat, j: nat, k: nat)
    requires j <= k && Takes(rem, den, s, k)
    ensures Takes(rem, den, s, j)
  {
    MulMono(j, k, Val(den));
    assert Val(den) * j == j * Val(den) && Val(den) * k == k * Val(den);
    MulMono(Val(den) * j, Val(den) * k, Pow(s));
  }

  /** The largest digit up to hi that the remainder takes. */
  ghost predicate IsDigit(rem: seq<Limb>, den: seq<Limb>, s: nat, hi: Limb, k: nat) {
    k <= hi && Takes(rem, den, s, k) && forall j: nat :: j <= hi && Takes(rem, den, s, j) ==> j <= k
  }

  /** The middle of the search, rounded up; hi - lo + 1 wraps at 64 bits. */
  function Middle(lo: Limb, hi: Limb): (mid: Limb)
    requires lo <= hi
    ensures lo <= mid <= hi
    ensures lo < hi ==> (mid == lo <==> lo == 0 && hi == B - 1)
  {
    lo + (hi - lo + 1) % B / 2
  }

  /** Binary search for the digit.  From the largest limb the middle comes out as 0,
      which the remainder takes: the search stays where it is and never ends. */
  method SearchDigit(rem: seq<Limb>, den: seq<Limb>, s: nat, hi0: Limb) returns (stuck: bool, lo: Limb)
    requires Normal(rem) && Normal(den) && |den| >= 2 && s <= |rem|
    ensures stuck <==> hi0 == B - 1
    ensures !stuck ==> IsDigit(rem, den, s, hi0, lo)
  {
    lo := 0;
    var hi := hi0;
    assert Takes(rem, den, s, 0) by { assert Val(den) * 0 == 0 && 0 * Pow(s) == 0; }
    while lo < hi
      invariant 0 <= lo <= hi <= hi0 && Takes(rem, den, s, lo)
      invariant hi0 == B - 1 ==> lo == 0 && hi == hi0
      invariant forall k: nat :: k <= hi0 && Takes(rem, den, s, k) ==> k <= hi
    {
      hide Takes, Middle;
      var mid := Middle(lo, hi);
      var ok := TestDigit(rem, den, s, mid);
      if ok {
        if mid == lo { return true, lo; }
        lo := mid;
      } else {
        forall k: nat | k <= hi0 && Takes(rem, den, s, k) ensures k <= mid - 1 {
          if mid <= k { TakesLess(rem, den, s, mid, k); }
        }
        hi := mid - 1;
      }
    }
    stuck := false;
  }

  method TestDigit(rem: seq<Limb>, den: seq<Limb>, s: nat, k: Limb) returns (ok: bool)
    requires Normal(rem) && Normal(den) && den != [] && s <= |rem|
    ensures ok == Takes(rem, den, s, k)
  {
    var prod := MulScalar(den, k);
    var c := CmpShifted(rem, prod, s);
    ok := c >= 0;
  }

  // ---- taking it away -----------------------------------------------------------

  /** rem - k * den * B^s in place: the last borrow is paid back. */
  method SubScaledShifted(rem: array<Limb>, rl: nat, den: seq<Limb>, s: nat, k: Limb) returns (len: nat)
    requires rl <= rem.Length && Normal(rem[..rl]) && Normal(den) && den != [] && k > 0
    requires Takes(rem[..rl], den, s, k)
    modifies rem
    ensures len <= rl && Normal(rem[..len])
    ensures Val(rem[..len]) + (Val(den) * k) * Pow(s) == old(Val(rem[..rl]))
  {
    hide Val, Pow;
    var prod := MulScalar(den, k);
    ProductIsPositive(den, prod, k);
    ProductIsShorter(rem[..rl], prod, s);
    ghost var before := Val(rem[..rl]);
    ValBound(rem[..rl]);
    var borrow, i := 0, 0;
    NoValue(prod, prod);
    BorrowStarts(before, Val(prod[..0]), s);
    while i < |prod|
      invariant 0 <= i <= |prod| && 0 <= borrow <= 1 && |prod| + s <= rl
      invariant Val(rem[..rl]) + Val(prod[..i]) * Pow(s) == before + borrow * Pow(s + i)
    {
      var av := rem[i + s];
      var bv := prod[i] + borrow;
      ghost var was, old0 := rem[..rl], borrow;
      if av >= bv {
        rem[i + s] := av - bv;
        borrow := 0;
      } else {
        rem[i + s] := B + av - bv;
        borrow := 1;
      }
      assert rem[..rl] == was[i + s := rem[i + s]];
      BorrowStep(was, rem[i + s], prod, i, s, before, old0, borrow);
      i := i + 1;
    }
    assert prod[..i] == prod;
    PayBack(rem, rl, i + s, borrow, before, Val(prod) * Pow(s));
    len := NormalizeLimbs(rem, rl);
  }

  lemma ProductIsPositive(den: seq<Limb>, prod: seq<Limb>, k: nat)
    requires Normal(den) && den != [] && Normal(prod) && Val(prod) == Val(den) * k && k > 0
    ensures prod != []
  {
    EmptyIsZero(den);
    EmptyIsZero(prod);
    MulMono(1, k, Val(den));
    assert k * Val(den) == Val(den) * k;
  }

  lemma ProductIsShorter(rem: seq<Limb>, prod: seq<Limb>, s: nat)
    requires Normal(rem) && Normal(prod) && Val(prod) * Pow(s) <= Val(rem)
    ensures prod != [] ==> |prod| + s <= |rem|
    ensures prod == [] ==> Val(prod) == 0
  {
    if prod != [] && |prod| + s > |rem| {
      ShorterIsBelow(rem, prod, s);
    }
  }

  lemma BorrowStarts(before: nat, v: nat, s: nat)
    requires v == 0
    ensures before + v * Pow(s) == before + 0 * Pow(s + 0)
  {
  }

  lemma BorrowStep(was: seq<Limb>, x: Limb, prod: seq<Limb>, i: nat, s: nat, before: nat, b0: nat, b1: nat)
    requires i < |prod| && i + s < |was| && x + prod[i] + b0 == was[i + s] + b1 * B
    requires Val(was) + Val(prod[..i]) * Pow(s) == before + b0 * Pow(s + i)
    ensures Val(was[i + s := x]) + Val(prod[..i + 1]) * Pow(s) == before + b1 * Pow(s + i + 1)
  {
    ValUpdate(was, i + s, x);
    ValTake(prod, i);
    PowAdd(s, i);
    hide Val;
    BorrowAlgebra(Val(was), Val(prod[..i]), x, was[i + s], prod[i], before, b0, b1, Pow(s), Pow(i), Pow(s + i));
  }

  lemma BorrowAlgebra(w: int, v: int, x: int, y: int, d: int, before: int, b0: int, b1: int, ps: int, p: int, psi: int)
    requires w + v * ps == before + b0 * psi && x + d + b0 == y + b1 * B && psi == ps * p
    ensures w + (x - y) * psi + (v + d * p) * ps == before + b1 * (B * psi)
  {
    Distribute(v, d * p, ps);
    assert (d * p) * ps == d * psi;
    assert (x - y) * psi + d * psi + b0 * psi == (x - y + d + b0) * psi;
    assert (b1 * B) * psi == b1 * (B * psi);
  }

  /** The borrow left over goes up until a limb pays it. */
  method PayBack(rem: array<Limb>, rl: nat, j0: nat, borrow0: nat, ghost before: nat, ghost taken: nat)
    requires j0 <= rl <= rem.Length && borrow0 <= 1 && taken <= before
    requires Val(rem[..rl]) + taken == before + borrow0 * Pow(j0)
    requires before < Pow(rl)
    modifies rem
    ensures Val(rem[..rl]) + taken == before
  {
    hide Val, Pow;
    var borrow, j := borrow0, j0;
    while borrow > 0 && j < rl
      invariant 0 <= j <= rl && 0 <= borrow <= 1
      invariant Val(rem[..rl]) + taken == before + borrow * Pow(j)
      decreases borrow, rl - j
    {
      ghost var was := rem[..rl];
      if rem[j] >= borrow {
        rem[j] := rem[j] - borrow;
        borrow := 0;
        assert rem[..rl] == was[j := rem[j]];
        PayStep(was, rem[j], j, before, taken, 0);
      } else {
        rem[j] := B + rem[j] - borrow;
        borrow := 1;
        assert rem[..rl] == was[j := rem[j]];
        PayStep(was, rem[j], j, before, taken, 1);
        j := j + 1;
      }
    }
    if borrow > 0 {
      ValBound(rem[..rl]);
    } else {
      NoLimb(Pow(j));
    }
  }

  lemma PayStep(was: seq<Limb>, x: Limb, j: nat, before: nat, taken: nat, b1: nat)
    requires j < |was| && x + 1 == was[j] + b1 * B
    requires Val(was) + taken == before + 1 * Pow(j)
    ensures Val(was[j := x]) + taken == before + b1 * Pow(if b1 == 0 then j else j + 1)
  {
    ValUpdate(was, j, x);
    hide Val;
    assert (b1 * B - 1) * Pow(j) == b1 * (B * Pow(j)) - Pow(j);
    assert x - was[j] == b1 * B - 1;
  }

  // ---- one round ------------------------------------------------------------------

  datatype Round = Below | Taken | Stuck

  /** One round for the digit at s: nothing when the remainder is below the shifted
      divisor; otherwise an estimate, the largest digit up to it, and that many
      divisors away.  The digit is added to its limb modulo 2^64. */
  method DivideRound(rem: array<Limb>, rl: nat, den: seq<Limb>, q: array<Limb>, s: nat)
    returns (round: Round, len: nat, digit: Limb)
    requires rl <= rem.Length && Normal(rem[..rl]) && Normal(den) && |den| >= 2 && s < q.Length && q != rem
    modifies rem, q
    ensures len <= rl && Normal(rem[..len])
    ensures round.Below? <==> old(Val(rem[..rl])) < Val(den) * Pow(s)
    ensures !round.Below? ==> rl > 0 && (round.Stuck? <==> Estimate(old(rem[..rl]), den) == B - 1)
    ensures !round.Taken? ==> digit == 0 && len == rl && rem[..] == old(rem[..])
    ensures round.Taken? ==> digit >= 1 && IsDigit(old(rem[..rl]), den, s, Estimate(old(rem[..rl]), den), digit)
    ensures Val(rem[..len]) + (Val(den) * digit) * Pow(s) == old(Val(rem[..rl]))
    ensures q[..] == old(q[..])[s := (old(q[s]) + digit) % B]
  {
    hide Val, Pow, Takes, IsDigit, Estimate;
    len, digit := rl, 0;
    ghost var r0, q0 := rem[..rl], q[..];
    NoneTaken(Val(den), Pow(s), q[s]);
    assert q0 == q0[s := (q[s] + 0) % B];
    var c := CmpShifted(rem[..rl], den, s);
    if c < 0 { return Below, rl, 0; }
    NotEmpty(r0, den, s);
    var hi := Estimate(rem[..rl], den);
    var stuck, lo := SearchDigit(rem[..rl], den, s, hi);
    if stuck { return Stuck, rl, 0; }
    TakesOne(r0, den, s, hi, lo);
    len := SubScaledShifted(rem, rl, den, s, lo);
    q[s] := (q[s] + lo) % B;
    assert q[..] == q0[s := (q0[s] + lo) % B];
    round, digit := Taken, lo;
  }

  lemma NoneTaken(den: nat, p: nat, x: Limb)
    ensures (den * 0) * p == 0 && (x + 0) % B == x
  {
    assert den * 0 == 0;
  }

  lemma NotEmpty(rem: seq<Limb>, den: seq<Limb>, s: nat)
    requires Normal(rem) && Normal(den) && den != [] && Val(rem) >= Val(den) * Pow(s)
    ensures rem != [] && s <= |rem|
  {
    hide Val, Pow;
    if |rem| < |den| + s { ShorterIsBelow(rem, den, s); }
  }

  /** The search finds at least one: the remainder takes the divisor once. */
  lemma TakesOne(rem: seq<Limb>, den: seq<Limb>, s: nat, hi: Limb, k: nat)
    requires rem != [] && den != [] && hi == Estimate(rem, den) && Val(rem) >= Val(den) * Pow(s)
    requires IsDigit(rem, den, s, hi, k)
    ensures k >= 1 && Takes(rem, den, s, k)
  {
    assert Val(den) * 1 == Val(den);
    assert Takes(rem, den, s, 1);
  }

  /** With the limbs aligned the digit found is the true one: what is left is below
      the shifted divisor. */
  lemma DigitIsExact(rem: seq<Limb>, den: seq<Limb>, s: nat, k: Limb, after: nat)
    requires Normal(rem) && Normal(den) && |den| >= 2 && |rem| == |den| + s && Estimate(rem, den) < B - 1
    requires IsDigit(rem, den, s, Estimate(rem, den), k)
    requires after + (Val(den) * k) * Pow(s) == Val(rem)
    ensures after < Val(den) * Pow(s)
  {
    hide Val, Pow, Estimate;
    if after >= Val(den) * Pow(s) {
      OneMore(Val(den), k, Pow(s));
      assert Takes(rem, den, s, k + 1);
      EstimateIsAbove(rem, den, s, k + 1);
    }
  }

  lemma OneMore(den: nat, lo: nat, p: nat)
    ensures (den * (lo + 1)) * p == (den * lo) * p + den * p
  {
    assert den * (lo + 1) == den * lo + den;
    Distribute(den * lo, den, p);
  }
}
