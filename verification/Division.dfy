/** The short paths of dividing magnitudes, and the law of quotient and remainder. */
module Division {
  import opened Limbs
  import opened Bignum

  function Two(n: nat): nat {
    if n == 0 then 1 else 2 * Two(n - 1)
  }

  lemma {:induction false} TwoPositive(n: nat)
    ensures Two(n) >= 1
  {
    if n > 0 { TwoPositive(n - 1); }
  }

  lemma {:induction false} TwoAdd(a: nat, b: nat)
    ensures Two(a + b) == Two(a) * Two(b)
  {
    if a > 0 {
      TwoAdd(a - 1, b);
      Regroup(2, Two(a - 1), Two(b));
    }
  }

  lemma TwoLimb()
    ensures Two(64) == B
  {
    assert Two(8) == 256 by {
      assert Two(4) == 16;
      assert Two(6) == 64;
    }
    TwoAdd(8, 8);
    TwoAdd(16, 16);
    TwoAdd(32, 32);
  }

  lemma {:induction false} TwoLimbs(n: nat)
    ensures Two(64 * n) == Pow(n)
  {
    if n > 0 {
      TwoLimbs(n - 1);
      TwoLimb();
      TwoAdd(64, 64 * (n - 1));
    }
  }

  // ---- powers of two --------------------------------------------------------

  /** The exponent of a limb that is a power of two, -1 for any other. */
  function Exponent(w: Limb): (e: int)
    ensures -1 <= e < 64
    ensures e >= 0 ==> w == Two(e)
  {
    ExponentUpto(w, 64)
  }

  function ExponentUpto(w: Limb, n: nat): (e: int)
    ensures -1 <= e < n || e == -1
    ensures e >= 0 ==> w == Two(e)
  {
    if n == 0 then -1 else if w == Two(n - 1) then n - 1 else ExponentUpto(w, n - 1)
  }

  lemma {:induction false} ExponentFound(b: nat, n: nat, w: Limb)
    requires b < n <= 64 && w == Two(b)
    ensures ExponentUpto(w, n) >= 0
  {
    if w != Two(n - 1) {
      ExponentFound(b, n - 1, w);
    }
  }

  ghost predicate IsPowerOfTwo(n: nat) {
    exists e: nat :: n == Two(e)
  }

  lemma TwoIsLimb(b: nat)
    requires b < 64
    ensures Two(b) < B
  {
    TwoLimb();
    TwoAdd(b, 64 - b);
    TwoPositive(64 - b - 1);
    TwoPositive(b);
    MulMono(2, Two(64 - b), Two(b));
    assert Two(64 - b) * Two(b) == Two(b) * Two(64 - b);
  }

  /** A power of two has one limb that is not zero, the top one, and that is a
      power of two. */
  lemma PowerHasOneLimb(den: seq<Limb>)
    requires Normal(den) && IsPowerOfTwo(Val(den))
    ensures den != [] && Exponent(den[|den| - 1]) >= 0 && forall i :: 0 <= i < |den| - 1 ==> den[i] == 0
  {
    var e: nat :| Val(den) == Two(e);
    var k, b := e / 64, e % 64;
    TwoIsLimb(b);
    TwoPositive(b);
    var top: Limb := Two(b);
    var zeros := seq(k, i => 0);
    var other: seq<Limb> := zeros + [top];
    ValZeros(zeros, 0);
    assert zeros[..0] == [];
    ValSnoc(zeros, top);
    TwoAdd(64 * k, b);
    TwoLimbs(k);
    assert Pow(k) * top == top * Pow(k);
    ValIsInjective(den, other);
    ExponentFound(b, 64, top);
  }

  lemma ZeroIsNoPower()
    ensures !IsPowerOfTwo(0)
  {
    forall e: nat ensures 0 != Two(e) {
      TwoPositive(e);
    }
  }

  lemma OneBit(w: Limb, i: nat)
    requires Exponent(w) >= 0
    ensures w * Pow(i) == Two(i * 64 + Exponent(w))
  {
    TwoAdd(64 * i, Exponent(w));
    TwoLimbs(i);
    assert w * Pow(i) == Pow(i) * w;
  }

  lemma PowerOneLimb(den: seq<Limb>)
    requires Normal(den)
    ensures IsPowerOfTwo(Val(den)) ==>
              den != [] && Exponent(den[|den| - 1]) >= 0 && forall i :: 0 <= i < |den| - 1 ==> den[i] == 0
  {
    if IsPowerOfTwo(Val(den)) { PowerHasOneLimb(den); }
  }

  /** A single limb that is not zero, and is a power of two. */
  method MagIsPow2(den: seq<Limb>) returns (yes: bool, exp: nat)
    requires Normal(den)
    ensures yes <==> IsPowerOfTwo(Val(den))
    ensures yes ==> Val(den) == Two(exp)
  {
    hide Val, Two, Pow, Exponent;
    exp := 0;
    var seen, i := false, 0;
    PowerOneLimb(den);
    NoValue(den, den);
    while i < |den|
      invariant 0 <= i <= |den|
      invariant !seen ==> Val(den[..i]) == 0
      invariant seen ==> Val(den[..i]) == Two(exp) && exists k :: 0 <= k < i && den[k] != 0
    {
      var w := den[i];
      ValTake(den, i);
      if w != 0 {
        if seen || Exponent(w) < 0 { return false, 0; }
        seen := true;
        exp := i * 64 + Exponent(w);
        OneBit(w, i);
        assert den[i] != 0;
      } else {
        NoLimb(Pow(i));
      }
      i := i + 1;
    }
    assert den[..i] == den;
    ZeroIsNoPower();
    return seen, exp;
  }

  lemma NoLimb(p: nat)
    ensures 0 * p == 0
  {
  }

  /** The value of a shifted limb: the upper bits of one, the lower bits of the next. */
  function ShiftedLimb(lo: Limb, hi: Limb, bits: nat): int
    requires 0 < bits < 64
  {
    TwoPositive(bits);
    lo / Two(bits) + (hi % Two(bits)) * Two(64 - bits)
  }

  lemma ShiftedFits(lo: Limb, hi: Limb, bits: nat)
    requires 0 < bits < 64
    ensures 0 <= ShiftedLimb(lo, hi, bits) < B
    ensures Two(bits) >= 1
    ensures ShiftedLimb(lo, hi, bits) * Two(bits) == lo - lo % Two(bits) + (hi % Two(bits)) * B
  {
    var r, t := Two(bits), Two(64 - bits);
    TwoPositive(bits);
    TwoPositive(64 - bits);
    TwoLimb();
    TwoAdd(bits, 64 - bits);
    assert r * t == B;
    ShiftAlgebra(lo, hi, r, t);
  }

  lemma ShiftAlgebra(lo: nat, hi: nat, r: nat, t: nat)
    requires r >= 1 && t >= 1 && r * t == B && lo < B && hi < B
    ensures 0 <= lo / r + (hi % r) * t < B
    ensures (lo / r + (hi % r) * t) * r == lo - lo % r + (hi % r) * B
  {
    var x, y, h := lo / r, lo % r, hi % r;
    assert lo == x * r + y && 0 <= h < r && x >= 0;
    Swap(t, r);
    DivLess(lo, t, r);
    ShiftParts(x, h, r, t);
  }

  lemma ShiftParts(x: nat, h: nat, r: nat, t: nat)
    requires t * r == B && x < t && h < r
    ensures 0 <= x + h * t < B
    ensures (x + h * t) * r == x * r + h * B
  {
    MulMono(h, r - 1, t);
    Distribute(r, -1, t);
    Swap(r, t);
    Distribute(x, h * t, r);
    Regroup(h, t, r);
  }

  ghost predicate Shifting(q: seq<Limb>, a: seq<Limb>, i: nat, r: nat)
    requires i <= |q| == |a| && r > 0
  {
    Val(q[..i]) * r + Digit(a, 0) % r == Val(a[..i]) + (Digit(a, i) % r) * Pow(i)
  }

  lemma ShiftStep(q: seq<Limb>, a: seq<Limb>, i: nat, r: nat)
    requires i < |q| == |a| && r > 0 && Shifting(q, a, i, r)
    requires q[i] * r == a[i] - a[i] % r + (Digit(a, i + 1) % r) * B
    ensures Shifting(q, a, i + 1, r)
  {
    ValTake(q, i);
    ValTake(a, i);
    hide Val;
    var p := Pow(i);
    StepAlgebra(Val(q[..i]), q[i], r, p, a[i], Digit(a, i + 1) % r);
  }

  lemma StepAlgebra(v: int, x: int, r: int, p: int, a: int, h: int)
    requires r > 0 && x * r == a - a % r + h * B
    ensures (v + x * p) * r == v * r + a * p - (a % r) * p + h * (B * p)
  {
    Distribute(v, x * p, r);
    assert (x * p) * r == (x * r) * p;
    Distribute(a - a % r, h * B, p);
    Distribute(a, 0 - a % r, p);
    assert (h * B) * p == h * (B * p);
  }

  lemma ShiftFactors(bits: nat)
    ensures Two(bits) >= 1 && Two(bits % 64) >= 1 && Pow(bits / 64) >= 1
    ensures Two(bits) == Pow(bits / 64) * Two(bits % 64)
  {
    TwoPositive(bits);
    TwoPositive(bits % 64);
    PowPositive(bits / 64);
    TwoAdd(64 * (bits / 64), bits % 64);
    TwoLimbs(bits / 64);
  }

  lemma AllDropped(num: seq<Limb>, bits: nat)
    requires bits / 64 >= |num|
    ensures Two(bits) >= 1 && Val(num) / Two(bits) == 0
  {
    hide Two, Pow, Val;
    ShiftFactors(bits);
    ValBound(num);
    PowMono(|num|, bits / 64);
    MulMono(1, Two(bits % 64), Pow(bits / 64));
    assert Two(bits % 64) * Pow(bits / 64) == Pow(bits / 64) * Two(bits % 64);
    QuotientIs(Val(num), 0, Two(bits), Val(num));
  }

  /** Whole limbs dropped, then the rest shifted: the quotient by 2^bits. */
  method MagShiftRight(num: seq<Limb>, bits: nat) returns (q: seq<Limb>)
    ensures Two(bits) >= 1 && Val(q) == Val(num) / Two(bits) && Normal(q)
  {
    hide Val, Pow, Two;
    var drop, rbits := bits / 64, bits % 64;
    ShiftFactors(bits);
    if drop >= |num| {
      AllDropped(num, bits);
      NoValue([], []);
      return [];
    }
    var a := num[drop..];
    DropIs(num, drop);
    var work := new Limb[|a|](_ => 0);
    if rbits == 0 {
      OneTwo();
      CopyLimbs(work, a);
    } else {
      ShiftLimbs(work, a, rbits);
      DivTwice(Val(num), Pow(drop), Two(rbits));
    }
    var len := NormalizeLimbs(work, |a|);
    q := work[..len];
  }

  method CopyLimbs(work: array<Limb>, a: seq<Limb>)
    requires |a| <= work.Length
    modifies work
    ensures work[..|a|] == a
  {
    var i := 0;
    while i < |a|
      invariant 0 <= i <= |a| <= work.Length && work[..i] == a[..i]
    {
      work[i] := a[i];
      i := i + 1;
    }
  }

  lemma OneTwo()
    ensures Two(0) == 1
  {
  }

  method ShiftLimbs(work: array<Limb>, a: seq<Limb>, rbits: nat)
    requires work.Length == |a| > 0 && 0 < rbits < 64
    modifies work
    ensures Two(rbits) >= 1 && Val(work[..|a|]) == Val(a) / Two(rbits)
  {
    hide Val, Pow, Two, ShiftedLimb;
    ShiftedFits(a[0], a[0], rbits);
    ghost var r := Two(rbits);
    StartShift(work[..], a, r);
    var i := 0;
    while i < |a|
      invariant 0 <= i <= |a| && work.Length == |a| && Shifting(work[..], a, i, r)
    {
      var hi: Limb := if i + 1 < |a| then a[i + 1] else 0;
      ShiftedFits(a[i], hi, rbits);
      ghost var was := work[..];
      work[i] := ShiftedLimb(a[i], hi, rbits);
      assert work[..][..i] == was[..i];
      ShiftStep(work[..], a, i, r);
      i := i + 1;
    }
    EndShift(work[..], a, r);
    assert work[..|a|] == work[..];
  }

  lemma StartShift(q: seq<Limb>, a: seq<Limb>, r: nat)
    requires |q| == |a| && r > 0
    ensures Shifting(q, a, 0, r)
  {
    assert q[..0] == [] && a[..0] == [];
  }

  lemma EndShift(q: seq<Limb>, a: seq<Limb>, r: nat)
    requires |q| == |a| && r > 0 && Shifting(q, a, |a|, r)
    ensures Val(q) == Val(a) / r
  {
    hide Val, Pow;
    assert q[..|a|] == q && a[..|a|] == a;
    var z := Digit(a, |a|) % r;
    ZeroMod(r);
    assert z == 0;
    TimesZero(z, Pow(|a|));
    QuotientIs(Val(a), Val(q), r, Digit(a, 0) % r);
  }

  lemma ZeroMod(r: nat)
    requires r > 0
    ensures 0 % r == 0
  {
  }

  lemma TimesZero(z: int, p: int)
    requires z == 0
    ensures z * p == 0
  {
  }

  lemma QuotientIs(n: nat, q: nat, d: nat, r: nat)
    requires d > 0 && n == q * d + r && r < d
    ensures n / d == q && n % d == r
  {
    var k := n / d;
    assert n == k * d + n % d;
    if k < q { MulMono(k + 1, q, d); Distribute(k, 1, d); }
    if k > q { MulMono(q + 1, k, d); Distribute(q, 1, d); }
  }

  lemma DivTwice(n: nat, p: nat, r: nat)
    requires p >= 1 && r >= 1
    ensures p * r >= 1 && n / (p * r) == (n / p) / r
  {
    MulMono(1, p, r);
    var a, x := n / p, n % p;
    var q, y := a / r, a % r;
    assert n == a * p + x && a == q * r + y;
    TwiceAlgebra(n, p, r, a, x, q, y);
    QuotientIs(n, q, p * r, y * p + x);
  }

  lemma TwiceAlgebra(n: nat, p: nat, r: nat, a: nat, x: nat, q: nat, y: nat)
    requires n == a * p + x && a == q * r + y && x < p && y < r
    ensures n == q * (p * r) + (y * p + x) && y * p + x < p * r
  {
    Distribute(q * r, y, p);
    assert (q * r) * p == q * (p * r);
    MulMono(y + 1, r, p);
    Distribute(y, 1, p);
    assert r * p == p * r;
  }

  lemma DropIs(num: seq<Limb>, drop: nat)
    requires drop <= |num|
    ensures Pow(drop) >= 1 && Val(num[drop..]) == Val(num) / Pow(drop) && Val(num[..drop]) == Val(num) % Pow(drop)
  {
    PowPositive(drop);
    assert num == num[..drop] + num[drop..];
    ValAppend(num[..drop], num[drop..]);
    ValBound(num[..drop]);
    QuotientIs(Val(num), Val(num[drop..]), Pow(drop), Val(num[..drop]));
  }

  /** The limbs that hold the lower bits, the top one masked: the remainder. */
  method MagModPow2(num: seq<Limb>, bits: nat) returns (r: seq<Limb>)
    ensures Two(bits) >= 1 && Val(r) == Val(num) % Two(bits) && Normal(r)
  {
    hide Val, Pow, Two;
    ShiftFactors(bits);
    if bits == 0 || |num| == 0 {
      OneTwo();
      NothingLeft(num, bits);
      return [];
    }
    var keep := (bits + 63) / 64;
    if keep > |num| { keep := |num|; }
    var work := new Limb[keep](_ => 0);
    CopyLimbs(work, num[..keep]);
    var rbits := bits % 64;
    if rbits != 0 && keep > 0 && keep * 64 > bits {
      var top: Limb := num[keep - 1] % Two(rbits);
      MaskTop(num, bits, keep, top);
      work[keep - 1] := top;
      assert work[..keep] == num[..keep][keep - 1 := top];
    } else {
      WholeLimbs(num, bits, keep);
    }
    var len := NormalizeLimbs(work, keep);
    r := work[..len];
  }

  lemma NothingLeft(num: seq<Limb>, bits: nat)
    requires bits == 0 || num == []
    ensures Two(bits) >= 1 && Val(num) % Two(bits) == 0 && Val([]) == 0
  {
    TwoPositive(bits);
    assert num == [] ==> Val(num) == 0;
    assert bits == 0 ==> Two(bits) == 1;
  }

  lemma WholeLimbs(num: seq<Limb>, bits: nat, keep: nat)
    requires 0 < keep <= |num| && (keep == (bits + 63) / 64 || (keep == |num| && keep <= (bits + 63) / 64))
    requires bits % 64 == 0 || keep * 64 <= bits
    ensures Two(bits) >= 1 && Val(num[..keep]) == Val(num) % Two(bits)
  {
    hide Val, Pow, Two;
    ShiftFactors(bits);
    if bits % 64 == 0 && keep == bits / 64 {
      OneTwo();
      DropIs(num, keep);
    } else {
      assert num[..keep] == num;
      ValBound(num);
      PowMono(|num|, bits / 64);
      MulMono(1, Two(bits % 64), Pow(bits / 64));
      assert Two(bits % 64) * Pow(bits / 64) == Pow(bits / 64) * Two(bits % 64);
      QuotientIs(Val(num), 0, Two(bits), Val(num));
    }
  }

  lemma MaskTop(num: seq<Limb>, bits: nat, keep: nat, top: Limb)
    requires 0 < keep <= |num| && keep == bits / 64 + 1 && bits % 64 != 0
    requires Two(bits % 64) >= 1 && top == num[keep - 1] % Two(bits % 64)
    ensures Two(bits) >= 1 && Val(num[..keep][keep - 1 := top]) == Val(num) % Two(bits)
  {
    hide Val, Pow, Two;
    ShiftFactors(bits);
    var d, r := keep - 1, Two(bits % 64);
    DropIs(num, keep);
    assert num[..keep][..d] == num[..d];
    ValTake(num, d);
    ValUpdate(num[..keep], d, top);
    ValBound(num[..d]);
    TwoPositive(64 - bits % 64);
    TwoAdd(bits % 64, 64 - bits % 64);
    TwoLimb();
    PowNext(d);
    assert Val(num[..keep]) == Val(num[..d]) + num[d] * Pow(d);
    MaskAlgebra(Val(num), Val(num[keep..]), Val(num[..d]), num[d], top, Pow(d), r, Two(64 - bits % 64));
    Distribute(top - num[d], num[d], Pow(d));
  }

  lemma PowNext(d: nat)
    ensures Pow(d + 1) == B * Pow(d)
  {
  }

  lemma MaskRegroup(rest: nat, p: nat, r: nat, t: nat)
    requires r * t == B
    ensures rest * (B * p) == (rest * t) * (p * r)
  {
    assert (r * t) * p == t * (p * r);
    assert rest * (t * (p * r)) == (rest * t) * (p * r);
  }

  lemma MaskedFits(low: nat, top: nat, p: nat, r: nat)
    requires low < p && top < r
    ensures low + top * p < p * r
  {
    MulMono(top + 1, r, p);
    Distribute(top, 1, p);
    assert r * p == p * r;
  }

  lemma MaskHigh(x: nat, h: nat, r: nat, top: nat, p: nat)
    requires x == h * r + top
    ensures x * p == h * (p * r) + top * p
  {
    Distribute(h * r, top, p);
    assert (h * r) * p == h * (p * r);
  }

  /** n = rest * B * p + low + x * p, modulo p * r where r divides B. */
  lemma MaskAlgebra(n: nat, rest: nat, low: nat, x: nat, top: nat, p: nat, r: nat, t: nat)
    requires r >= 1 && p >= 1 && r * t == B && low < p && top == x % r
    requires n == rest * (B * p) + (low + x * p)
    ensures p * r >= 1 && low + top * p == n % (p * r)
  {
    var h := x / r;
    assert x == h * r + top;
    MaskedFits(low, top, p, r);
    MaskHigh(x, h, r, top, p);
    MaskRegroup(rest, p, r, t);
    var m := p * r;
    Distribute(rest * t, h, m);
    QuotientIs(n, rest * t + h, m, low + top * p);
  }

  // ---- division of magnitudes -----------------------------------------------

  datatype Path = ByZero | Short | Long

  lemma PowerOfTwoSplits(n: nat, e: nat)
    ensures Two(e) >= 1 && n == (n / Two(e)) * Two(e) + n % Two(e) && n % Two(e) < Two(e)
  {
    TwoPositive(e);
  }

  /** A divisor of more than one limb that is no power of two and no larger than
      the numerator goes the long way. */
  ghost predicate NeedsLong(num: seq<Limb>, den: seq<Limb>) {
    |den| > 1 && !IsPowerOfTwo(Val(den)) && Val(den) <= Val(num)
  }

  /** Quotient and remainder on the paths for powers of two, for a numerator that
      is smaller, and for a divisor of one limb. */
  method DivShort(num: seq<Limb>, den: seq<Limb>) returns (path: Path, q: seq<Limb>, r: seq<Limb>)
    requires Normal(num) && Normal(den)
    ensures path == if Val(den) == 0 then ByZero else if NeedsLong(num, den) then Long else Short
    ensures path.Short? ==> Normal(q) && Normal(r) && Val(num) == Val(q) * Val(den) + Val(r) && Val(r) < Val(den)
  {
    hide Val, Pow, Two;
    q, r := [], [];
    EmptyIsZero(den);
    if |den| == 0 { return ByZero, [], []; }
    var pow2, e := MagIsPow2(den);
    if pow2 {
      q := MagShiftRight(num, e);
      r := MagModPow2(num, e);
      PowerOfTwoSplits(Val(num), e);
      return Short, q, r;
    }
    var c := CmpMag(num, den);
    if c < 0 {
      NoValue([], []);
      return Short, [], num;
    }
    if |den| == 1 {
      q, r := DivByLimb(num, den[0]);
      One(den[0]);
      assert den == [den[0]];
      return Short, q, r;
    }
    return Long, [], [];
  }

  lemma EmptyIsZero(a: seq<Limb>)
    requires Normal(a)
    ensures Val(a) == 0 <==> a == []
  {
    if a != [] {
      NormalBound(a);
      PowPositive(|a| - 1);
    }
  }

  method DivByLimb(num: seq<Limb>, d: Limb) returns (q: seq<Limb>, r: seq<Limb>)
    requires d > 0
    ensures Normal(q) && Normal(r) && Val(num) == Val(q) * d + Val(r) && Val(r) < d
  {
    hide Val, Pow;
    var work, rem := DivSmall(num, d);
    var len := NormalizeLimbs(work, work.Length);
    assert work[..work.Length] == work[..];
    q := work[..len];
    NoValue([], []);
    One(rem);
    r := if rem == 0 then [] else [rem];
  }

  // ---- signs ----------------------------------------------------------------

  function DivNat(x: nat, y: nat): nat
    requires y > 0
  {
    x / y
  }

  function ModNat(x: nat, y: nat): nat
    requires y > 0
  {
    x % y
  }

  /** Division that rounds toward zero. */
  function Quot(a: int, b: int): int
    requires b != 0
  {
    if (a >= 0) == (b > 0) then DivNat(Abs(a), Abs(b)) else 0 - DivNat(Abs(a), Abs(b))
  }

  function Rem(a: int, b: int): int
    requires b != 0
  {
    if a >= 0 then ModNat(Abs(a), Abs(b)) else 0 - ModNat(Abs(a), Abs(b))
  }

  function Abs(a: int): (n: nat)
    ensures a != 0 ==> n > 0
  {
    if a >= 0 then a else 0 - a
  }

  lemma MagLaw(x: nat, y: nat)
    requires y > 0
    ensures x == y * DivNat(x, y) + ModNat(x, y) && ModNat(x, y) < y
  {
  }

  lemma SignCases(a: int, b: int, x: nat, y: nat, k: nat, m: nat)
    requires x == y * k + m && (a == x || (a == 0 - x && x > 0)) && (b == y || b == 0 - y) && y > 0
    ensures a == b * (if (a >= 0) == (b > 0) then k else 0 - k) + (if a >= 0 then m else 0 - m)
  {
    SignedQuot(y, k);
    if b == y {
      if a == x {
      } else {
        assert b * (0 - k) == 0 - y * k;
      }
    } else {
      if a == x {
        assert b * (0 - k) == y * k;
      } else {
        assert b * k == 0 - y * k;
      }
    }
  }

  lemma QuotRemParts(a: int, b: int) returns (x: nat, y: nat, k: nat, m: nat)
    requires b != 0
    ensures y > 0 && x == y * k + m && m < y
    ensures (a == x || (a == 0 - x && x > 0)) && (b == y || b == 0 - y)
    ensures Quot(a, b) == (if (a >= 0) == (b > 0) then k else 0 - k) && Rem(a, b) == (if a >= 0 then m else 0 - m)
  {
    hide DivNat, ModNat;
    x, y := Abs(a), Abs(b);
    k, m := DivNat(x, y), ModNat(x, y);
    MagLaw(x, y);
  }

  /** a is b times the quotient, plus a remainder smaller than b with the sign of a. */
  lemma QuotRemLaw(a: int, b: int)
    requires b != 0
    ensures a == b * Quot(a, b) + Rem(a, b)
    ensures Abs(Rem(a, b)) < Abs(b) && (Rem(a, b) > 0 ==> a > 0) && (Rem(a, b) < 0 ==> a < 0)
  {
    hide Quot, Rem;
    var x, y, k, m := QuotRemParts(a, b);
    SignCases(a, b, x, y, k, m);
    if a == 0 { RemainderIsSmall(x, y, k, m); }
  }

  lemma RemainderIsSmall(x: nat, y: nat, k: nat, m: nat)
    requires x == y * k + m && x == 0 && y > 0
    ensures m == 0
  {
    assert y * k >= 0;
  }

  lemma SignedQuot(y: int, k: int)
    ensures (0 - y) * (0 - k) == y * k && (0 - y) * k == 0 - y * k && y * (0 - k) == 0 - y * k
  {
  }

  lemma AbsOfView(a: Num)
    requires Ok(a)
    ensures Abs(IntOf(a)) == Val(Mag(a)) && (Positive(a) <==> IntOf(a) >= 0)
  {
    ViewIs(a);
    EmptyIsZero(Mag(a));
  }

  method FromLimbs(limbs: seq<Limb>, positive: bool) returns (v: Num)
    ensures Canonical(v) && IntOf(v) == Signed(Val(limbs), positive)
  {
    var a := new Limb[|limbs|](_ => 0);
    CopyLimbs(a, limbs);
    v := MakeFromMag(a, |limbs|, positive);
  }
}
