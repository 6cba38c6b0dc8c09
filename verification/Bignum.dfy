/** Exact integers: fixnums where they fit, limbs and a sign where they do not. */
module Bignum {
  import opened Limbs

  datatype Option<T> = None | Some(value: T)

  const FIXNUM_MIN := -0x8000_0000_0000
  const FIXNUM_MAX := 0x7fff_ffff_ffff

  datatype Num = Fix(n: int) | Big(limbs: seq<Limb>, positive: bool)

  function Signed(m: nat, positive: bool): int {
    if positive then m else 0 - m
  }

  function IntOf(v: Num): int {
    match v case Fix(n) => n case Big(limbs, positive) => Signed(Val(limbs), positive)
  }

  predicate FitsFixnum(limbs: seq<Limb>, positive: bool) {
    limbs == [] || (|limbs| == 1 && limbs[0] <= if positive then FIXNUM_MAX else 0x8000_0000_0000)
  }

  /** A number as operations take it: limbs without a leading zero. */
  predicate Ok(v: Num) {
    match v
    case Fix(n) => FIXNUM_MIN <= n <= FIXNUM_MAX
    case Big(limbs, _) => limbs != [] && Normal(limbs)
  }

  /** The one form of each integer: a fixnum exactly when it fits. */
  predicate Canonical(v: Num) {
    Ok(v) && (v.Big? ==> !FitsFixnum(v.limbs, v.positive))
  }

  // ---- views ----------------------------------------------------------------

  function Mag(v: Num): seq<Limb>
    requires Ok(v)
  {
    match v
    case Fix(n) => if n == 0 then [] else if n > 0 then [n] else [-n]
    case Big(limbs, _) => limbs
  }

  predicate Positive(v: Num) {
    match v case Fix(n) => n >= 0 case Big(_, positive) => positive
  }

  lemma One(x: Limb)
    ensures Val([x]) == x && Pow(0) == 1
  {
    assert [x][..0] == [];
  }

  lemma ViewIs(v: Num)
    requires Ok(v)
    ensures Normal(Mag(v)) && IntOf(v) == Signed(Val(Mag(v)), Positive(v))
    ensures Mag(v) == [] <==> IntOf(v) == 0
    ensures Mag(v) == [] ==> Positive(v)
  {
    if v.Fix? && v.n != 0 {
      One(if v.n > 0 then v.n else -v.n);
    }
    if v.Big? {
      NormalBound(v.limbs);
      PowPositive(|v.limbs| - 1);
    }
  }

  lemma FitsIff(limbs: seq<Limb>, positive: bool)
    requires Normal(limbs)
    ensures FitsFixnum(limbs, positive) <==> FIXNUM_MIN <= Signed(Val(limbs), positive) <= FIXNUM_MAX
  {
    if |limbs| == 1 {
      One(limbs[0]);
      assert limbs == [limbs[0]];
    } else if |limbs| > 1 {
      NormalBound(limbs);
      PowMono(1, |limbs| - 1);
      assert Pow(1) == B * Pow(0) == B;
    }
  }

  /** Canonical numbers are equal exactly when their limbs and signs are. */
  lemma CanonicalIsUnique(a: Num, b: Num)
    requires Canonical(a) && Canonical(b) && IntOf(a) == IntOf(b)
    ensures a == b
  {
    if a.Big? { FitsIff(a.limbs, a.positive); }
    if b.Big? { FitsIff(b.limbs, b.positive); }
    if a.Big? && b.Big? {
      NormalBound(a.limbs);
      PowPositive(|a.limbs| - 1);
      NormalBound(b.limbs);
      PowPositive(|b.limbs| - 1);
      ValIsInjective(a.limbs, b.limbs);
    }
  }

  lemma SameProduct(u: int, v: int, x: int, y: int, p: int)
    requires x == y && u + x * p == v + y * p
    ensures u == v
  {
  }

  lemma {:induction false} SameLengthInjective(a: seq<Limb>, b: seq<Limb>)
    requires |a| == |b| && Val(a) == Val(b)
    ensures a == b
  {
    if a != [] {
      hide Pow;
      var n := |a| - 1;
      if a[n] > b[n] {
        TopDifference(a, b, n);
      } else if b[n] > a[n] {
        TopDifference(b, a, n);
      } else {
        SameProduct(Val(a[..n]), Val(b[..n]), a[n], b[n], Pow(n));
        SameLengthInjective(a[..n], b[..n]);
        assert a == a[..n] + [a[n]] && b == b[..n] + [b[n]];
      }
    }
  }

  lemma ValIsInjective(a: seq<Limb>, b: seq<Limb>)
    requires Normal(a) && Normal(b) && Val(a) == Val(b)
    ensures a == b
  {
    if |a| > |b| { LongerIsLarger(a, b); }
    if |b| > |a| { LongerIsLarger(b, a); }
    SameLengthInjective(a, b);
  }

  // ---- results --------------------------------------------------------------

  /** Limbs as they come out of a loop become a canonical number. */
  method MakeFromMag(limbs: array<Limb>, len0: nat, positive: bool) returns (v: Num)
    requires len0 <= limbs.Length
    ensures Canonical(v) && IntOf(v) == Signed(Val(limbs[..len0]), positive)
  {
    var len := NormalizeLimbs(limbs, len0);
    var m := limbs[..len];
    if len == 0 { return Fix(0); }
    FitsIff(m, positive);
    if FitsFixnum(m, positive) {
      One(m[0]);
      assert m == [m[0]];
      return Fix(Signed(m[0], positive));
    }
    return Big(m, positive);
  }

  method Compare(a: Num, b: Num) returns (c: int)
    requires Ok(a) && Ok(b)
    ensures -1 <= c <= 1
    ensures (c < 0 <==> IntOf(a) < IntOf(b)) && (c == 0 <==> IntOf(a) == IntOf(b))
  {
    ViewIs(a);
    ViewIs(b);
    if |Mag(a)| == 0 && |Mag(b)| == 0 { return 0; }
    if Positive(a) != Positive(b) { return if Positive(a) then 1 else -1; }
    c := CmpMag(Mag(a), Mag(b));
    if !Positive(a) { c := -c; }
  }

  method Add(a: Num, b: Num) returns (v: Num)
    requires Ok(a) && Ok(b)
    ensures Canonical(v) && IntOf(v) == IntOf(a) + IntOf(b)
  {
    ViewIs(a);
    ViewIs(b);
    var limbs, len;
    if Positive(a) == Positive(b) {
      limbs, len := AddMag(Mag(a), Mag(b));
      v := MakeFromMag(limbs, len, Positive(a));
      return;
    }
    var c := CmpMag(Mag(a), Mag(b));
    if c == 0 { return Fix(0); }
    if c > 0 {
      NotShorter(Mag(a), Mag(b));
      limbs, len := SubMag(Mag(a), Mag(b));
      v := MakeFromMag(limbs, len, Positive(a));
    } else {
      NotShorter(Mag(b), Mag(a));
      limbs, len := SubMag(Mag(b), Mag(a));
      v := MakeFromMag(limbs, len, Positive(b));
    }
  }

  lemma NotShorter(a: seq<Limb>, b: seq<Limb>)
    requires Normal(a) && Normal(b) && Val(a) > Val(b)
    ensures |b| <= |a|
  {
    if |b| > |a| { LongerIsLarger(b, a); }
  }

  /** The same limbs under the other sign, without looking at the size again. */
  function Negate(a: Num): (v: Num)
    requires Ok(a)
    ensures Ok(v)
  {
    match a
    case Fix(n) => if n == FIXNUM_MIN then Big([0x8000_0000_0000], true) else Fix(-n)
    case Big(limbs, positive) => Big(limbs, !positive)
  }

  lemma NegateIsExact(a: Num)
    requires Ok(a)
    ensures IntOf(Negate(a)) == -IntOf(a)
  {
    One(0x8000_0000_0000);
  }

  /** Negation leaves the canonical form for one number only. */
  lemma NegateIsCanonicalIff(a: Num)
    requires Canonical(a)
    ensures Canonical(Negate(a)) <==> IntOf(a) != 0x8000_0000_0000
  {
    One(0x8000_0000_0000);
    if a.Big? {
      FitsIff(a.limbs, a.positive);
      FitsIff(a.limbs, !a.positive);
    }
  }

  method Sub(a: Num, b: Num) returns (v: Num)
    requires Ok(a) && Ok(b)
    ensures Canonical(v) && IntOf(v) == IntOf(a) - IntOf(b)
  {
    NegateIsExact(b);
    v := Add(a, Negate(b));
  }

  lemma SignedProduct(x: int, y: int, p: bool, q: bool)
    requires x >= 0 && y >= 0
    ensures x * y >= 0 && Signed(x, p) * Signed(y, q) == Signed(x * y, p == q)
  {
    assert (0 - x) * y == 0 - x * y && x * (0 - y) == 0 - x * y && (0 - x) * (0 - y) == x * y;
  }

  method Mul(a: Num, b: Num) returns (v: Num)
    requires Ok(a) && Ok(b)
    ensures Canonical(v) && IntOf(v) == IntOf(a) * IntOf(b)
  {
    ViewIs(a);
    ViewIs(b);
    SignedProduct(Val(Mag(a)), Val(Mag(b)), Positive(a), Positive(b));
    var limbs, len := MulMag(Mag(a), Mag(b));
    if len == 0 {
      assert limbs[..0] == [];
      return Fix(0);
    }
    v := MakeFromMag(limbs, len, Positive(a) == Positive(b));
  }
}
