/** Magnitudes in base 2^64, least limb first. */
module Limbs {

  const B: nat := 0x1_0000_0000_0000_0000

  type Limb = x: int | 0 <= x < 0x1_0000_0000_0000_0000

  function Pow(n: nat): nat {
    if n == 0 then 1 else B * Pow(n - 1)
  }

  /** The number the limbs stand for. */
  function Val(a: seq<Limb>): nat {
    if a == [] then 0 else Val(a[..|a| - 1]) + a[|a| - 1] * Pow(|a| - 1)
  }

  // ---- arithmetic -----------------------------------------------------------

  lemma MulMono(x: nat, y: nat, z: nat)
    requires x <= y
    ensures x * z <= y * z
  {
    assert (y - x) * z >= 0;
  }

  /** A digit and its carry, in place. */
  lemma CarryStep(s: int, r: int, c: int, p: nat)
    requires s == r + B * c
    ensures s * p == r * p + c * (B * p)
  {
    assert s * p == r * p + (B * c) * p;
  }

  lemma Distribute(x: int, y: int, p: int)
    ensures (x + y) * p == x * p + y * p
  {
  }

  lemma Regroup(x: int, y: int, z: int)
    ensures (x * y) * z == x * (y * z)
  {
  }

  lemma Swap(x: int, y: int)
    ensures x * y == y * x
  {
  }

  lemma {:induction false} PowAdd(a: nat, b: nat)
    ensures Pow(a + b) == Pow(a) * Pow(b)
  {
    if a > 0 {
      PowAdd(a - 1, b);
      Regroup(B, Pow(a - 1), Pow(b));
    }
  }

  lemma {:induction false} PowPositive(n: nat)
    ensures Pow(n) >= 1
  {
    if n > 0 { PowPositive(n - 1); }
  }

  lemma {:induction false} PowMono(a: nat, b: nat)
    requires a <= b
    ensures Pow(a) <= Pow(b)
  {
    if a < b {
      PowMono(a, b - 1);
    }
  }

  // ---- values ---------------------------------------------------------------

  lemma ValSnoc(a: seq<Limb>, x: Limb)
    ensures Val(a + [x]) == Val(a) + x * Pow(|a|)
  {
    assert (a + [x])[..|a|] == a;
  }

  lemma ValTake(a: seq<Limb>, i: nat)
    requires i < |a|
    ensures Val(a[..i + 1]) == Val(a[..i]) + a[i] * Pow(i)
  {
    assert a[..i + 1] == a[..i] + [a[i]];
    ValSnoc(a[..i], a[i]);
  }

  lemma {:induction false} ValBound(a: seq<Limb>)
    ensures Val(a) < Pow(|a|)
  {
    if a != [] {
      ValBound(a[..|a| - 1]);
      var p := Pow(|a| - 1);
      MulMono(a[|a| - 1], B - 1, p);
      assert (B - 1) * p == B * p - p;
    }
  }

  lemma {:induction false} ValZeros(a: seq<Limb>, z: nat)
    requires z <= |a| && forall k :: z <= k < |a| ==> a[k] == 0
    ensures Val(a) == Val(a[..z])
  {
    if z < |a| {
      ValZeros(a[..|a| - 1], z);
      assert a[..|a| - 1][..z] == a[..z];
    } else {
      assert a[..z] == a;
    }
  }

  lemma AppendAlgebra(v: int, x: int, p: int, q: int)
    ensures (v + x * p) * q == v * q + x * (q * p)
  {
    Distribute(v, x * p, q);
    assert (x * p) * q == x * (q * p);
  }

  lemma {:induction false} ValAppend(a: seq<Limb>, b: seq<Limb>)
    ensures Val(a + b) == Val(a) + Val(b) * Pow(|a|)
  {
    if b == [] {
      assert a + b == a;
    } else {
      var front, last := b[..|b| - 1], b[|b| - 1];
      ValAppend(a, front);
      assert (a + b)[..|a + b| - 1] == a + front;
      PowAdd(|a|, |front|);
      AppendAlgebra(Val(front), last, Pow(|front|), Pow(|a|));
    }
  }

  lemma {:induction false} ValUpdate(a: seq<Limb>, k: nat, x: Limb)
    requires k < |a|
    ensures Val(a[k := x]) == Val(a) + (x - a[k]) * Pow(k)
  {
    var n := |a| - 1;
    if k == n {
      assert a[k := x][..n] == a[..n];
      Distribute(x - a[k], a[k], Pow(k));
    } else {
      assert a[k := x][..n] == a[..n][k := x];
      ValUpdate(a[..n], k, x);
    }
  }

  /** No leading zero limb. */
  predicate Normal(a: seq<Limb>) {
    a != [] ==> a[|a| - 1] != 0
  }

  lemma NormalBound(a: seq<Limb>)
    requires Normal(a) && a != []
    ensures Pow(|a| - 1) <= Val(a)
  {
    MulMono(1, a[|a| - 1], Pow(|a| - 1));
  }

  lemma LongerIsLarger(a: seq<Limb>, b: seq<Limb>)
    requires Normal(a) && |a| > |b|
    ensures Val(a) > Val(b)
  {
    NormalBound(a);
    ValBound(b);
    PowMono(|b|, |a| - 1);
  }

  /** The first difference from the top decides. */
  lemma {:induction false} TopDifference(a: seq<Limb>, b: seq<Limb>, i: nat)
    requires |a| == |b| && i < |a| && a[i] > b[i] && forall k :: i < k < |a| ==> a[k] == b[k]
    ensures Val(a) > Val(b)
  {
    var n := |a| - 1;
    if i == n {
      ValBound(b[..n]);
      MulMono(b[n] + 1, a[n], Pow(n));
      Distribute(b[n], 1, Pow(n));
    } else {
      TopDifference(a[..n], b[..n], i);
    }
  }

  // ---- the loops ------------------------------------------------------------

  method NormalizeLimbs(a: array<Limb>, len0: nat) returns (len: nat)
    requires len0 <= a.Length
    ensures len <= len0 && Normal(a[..len]) && Val(a[..len]) == Val(a[..len0])
    ensures forall k :: len <= k < len0 ==> a[k] == 0
  {
    len := len0;
    while len > 0 && a[len - 1] == 0
      invariant len <= len0
      invariant forall k :: len <= k < len0 ==> a[k] == 0
    {
      len := len - 1;
    }
    ValZeros(a[..len0], len);
    assert a[..len0][..len] == a[..len];
  }

  /** -1, 0 or 1 as the magnitudes compare; without leading zeros that is how the
      numbers compare. */
  method CmpMag(a: seq<Limb>, b: seq<Limb>) returns (c: int)
    requires Normal(a) && Normal(b)
    ensures -1 <= c <= 1
    ensures (c < 0 <==> Val(a) < Val(b)) && (c == 0 <==> Val(a) == Val(b)) && (c == 0 ==> a == b)
  {
    if |a| != |b| {
      if |a| > |b| {
        LongerIsLarger(a, b);
        return 1;
      } else {
        LongerIsLarger(b, a);
        return -1;
      }
    }
    var i := |a|;
    while i > 0
      invariant 0 <= i <= |a| == |b| && forall k :: i <= k < |a| ==> a[k] == b[k]
    {
      if a[i - 1] != b[i - 1] {
        if a[i - 1] > b[i - 1] {
          TopDifference(a, b, i - 1);
          return 1;
        } else {
          TopDifference(b, a, i - 1);
          return -1;
        }
      }
      i := i - 1;
    }
    assert a == b;
    return 0;
  }

  /** The limbs up to i, and zeros beyond the end. */
  function Upto(a: seq<Limb>, i: nat): nat {
    if i <= |a| then Val(a[..i]) else Val(a)
  }

  function Digit(a: seq<Limb>, i: nat): Limb {
    if i < |a| then a[i] else 0
  }

  lemma UptoStep(a: seq<Limb>, i: nat)
    ensures Upto(a, i + 1) == Upto(a, i) + Digit(a, i) * Pow(i)
  {
    if i < |a| {
      ValTake(a, i);
    } else if i == |a| {
      assert a[..i] == a;
    }
  }

  lemma UptoAll(a: seq<Limb>, i: nat)
    requires |a| <= i
    ensures Upto(a, i) == Val(a)
  {
    if i == |a| { assert a[..i] == a; }
  }

  method AddMag(a: seq<Limb>, b: seq<Limb>) returns (r: array<Limb>, len: nat)
    ensures len <= r.Length && fresh(r) && Val(r[..len]) == Val(a) + Val(b)
  {
    hide Val, Upto, Pow;
    NoValue(a, b);
    var max := if |a| > |b| then |a| else |b|;
    r := new Limb[max + 1](_ => 0);
    var carry, i := 0, 0;
    while i < max
      invariant i <= max && 0 <= carry <= 1 && r[max] == 0
      invariant Val(r[..i]) + carry * Pow(i) == Upto(a, i) + Upto(b, i)
    {
      var sum := carry;
      if i < |a| { sum := sum + a[i]; }
      if i < |b| { sum := sum + b[i]; }
      ghost var was := r[..i];
      r[i] := sum % B;
      assert r[..i] == was;
      assert r[..][..i] == r[..i] && r[..][..i + 1] == r[..i + 1];
      AddStep(r[..], i, a, b, carry, sum);
      carry := sum / B;
      i := i + 1;
    }
    UptoAll(a, max);
    UptoAll(b, max);
    len := max;
    assert carry == 0 ==> carry * Pow(max) == 0;
    if carry > 0 {
      ghost var was := r[..max];
      r[max] := carry;
      len := max + 1;
      assert r[..max + 1] == was + [carry];
      ValSnoc(was, carry);
    }
  }

  lemma NoValue(a: seq<Limb>, b: seq<Limb>)
    ensures Val([]) == 0 && Upto(a, 0) == 0 && Upto(b, 0) == 0 && Pow(0) == 1
    ensures a[..0] == [] && b[..0] == []
  {
  }

  lemma AddStep(r: seq<Limb>, i: nat, a: seq<Limb>, b: seq<Limb>, carry: nat, sum: nat)
    requires i < |r| && carry <= 1 && sum == carry + Digit(a, i) + Digit(b, i) && r[i] == sum % B
    requires Val(r[..i]) + carry * Pow(i) == Upto(a, i) + Upto(b, i)
    ensures sum / B <= 1
    ensures Val(r[..i + 1]) + (sum / B) * Pow(i + 1) == Upto(a, i + 1) + Upto(b, i + 1)
  {
    ValTake(r, i);
    UptoStep(a, i);
    UptoStep(b, i);
    hide Val, Upto;
    CarryStep(sum, r[i], sum / B, Pow(i));
    Distribute(carry + Digit(a, i), Digit(b, i), Pow(i));
    Distribute(carry, Digit(a, i), Pow(i));
  }

  /** The larger minus the smaller: the last borrow is zero. */
  method SubMag(a: seq<Limb>, b: seq<Limb>) returns (r: array<Limb>, len: nat)
    requires Val(b) <= Val(a) && |b| <= |a|
    ensures len <= r.Length && fresh(r) && Normal(r[..len]) && Val(r[..len]) == Val(a) - Val(b)
  {
    hide Val, Upto, Pow;
    NoValue(a, b);
    r := new Limb[|a|](_ => 0);
    var borrow, i := 0, 0;
    while i < |a|
      invariant i <= |a| && 0 <= borrow <= 1
      invariant Val(r[..i]) + Upto(b, i) == Val(a[..i]) + borrow * Pow(i)
    {
      var av := a[i];
      var bv := (if i < |b| then b[i] else 0) + borrow;
      ghost var was, before := r[..i], borrow;
      if av >= bv {
        r[i] := av - bv;
        borrow := 0;
      } else {
        r[i] := B + av - bv;
        borrow := 1;
      }
      assert r[..i] == was;
      assert r[..][..i] == r[..i] && r[..][..i + 1] == r[..i + 1];
      SubStep(r[..], i, a, b, before, borrow);
      i := i + 1;
    }
    UptoAll(b, |a|);
    assert a[..|a|] == a && r[..|a|] == r[..];
    ValBound(r[..]);
    NoBorrow(Val(r[..]), Val(a), Val(b), borrow, Pow(|a|));
    len := NormalizeLimbs(r, |a|);
  }

  lemma NoBorrow(r: nat, a: nat, b: nat, borrow: nat, p: nat)
    requires r + b == a + borrow * p && b <= a && r < p && borrow <= 1
    ensures borrow == 0
  {
  }

  lemma SubStep(r: seq<Limb>, i: nat, a: seq<Limb>, b: seq<Limb>, before: nat, after: nat)
    requires i < |r| && i < |a| && r[i] + Digit(b, i) + before == a[i] + after * B
    requires Val(r[..i]) + Upto(b, i) == Val(a[..i]) + before * Pow(i)
    ensures Val(r[..i + 1]) + Upto(b, i + 1) == Val(a[..i + 1]) + after * Pow(i + 1)
  {
    ValTake(r, i);
    ValTake(a, i);
    UptoStep(b, i);
    hide Val, Upto;
    SubAlgebra(r[i], Digit(b, i), before, a[i], after, Pow(i));
  }

  lemma SubAlgebra(r: int, b: int, before: int, a: int, after: int, p: int)
    requires r + b + before == a + after * B
    ensures r * p + b * p + before * p == a * p + after * (B * p)
  {
    Distribute(r + b, before, p);
    Distribute(r, b, p);
    Distribute(a, after * B, p);
    assert (after * B) * p == after * (B * p);
  }

  // ---- multiplication -------------------------------------------------------

  lemma LimbProduct(x: Limb, y: Limb)
    ensures 0 <= x * y <= 0xffff_ffff_ffff_fffe_0000_0000_0000_0001
  {
    MulMono(x, B - 1, y);
    assert (B - 1) * y == 0xffff_ffff_ffff_ffff * y;
  }

  /** One product of limbs on top of what is there fits two limbs. */
  lemma ProductFits(x: Limb, y: Limb, r: Limb, carry: Limb)
    ensures 0 <= x * y + r + carry < 0x1_0000_0000_0000_0000_0000_0000_0000_0000
    ensures (x * y + r + carry) / B < B
  {
    LimbProduct(x, y);
  }

  lemma DivLess(s: nat, m: nat, n: nat)
    requires n > 0 && s < m * n
    ensures s / n < m
  {
    if m <= s / n { MulMono(m, s / n, n); }
    assert s == (s / n) * n + s % n;
  }

  /** The row in progress: what is in r, plus the carry, is the rows done and the
      part of this row done. */
  ghost predicate RowInvariant(r: seq<Limb>, a: seq<Limb>, b: seq<Limb>, i: nat, j: nat, carry: nat)
    requires i < |a| && j <= |b|
  {
    Val(r) + carry * Pow(i + j) == Val(a[..i]) * Val(b) + (a[i] * Val(b[..j])) * Pow(i)
  }

  lemma RowStarts(r: seq<Limb>, a: seq<Limb>, b: seq<Limb>, i: nat)
    requires i < |a| && Val(r) == Val(a[..i]) * Val(b)
    ensures RowInvariant(r, a, b, i, 0, 0)
  {
    assert b[..0] == [];
  }

  lemma RowStep(r: seq<Limb>, a: seq<Limb>, b: seq<Limb>, i: nat, j: nat, carry: nat, prod: nat)
    requires i < |a| && j < |b| && i + j < |r| && RowInvariant(r, a, b, i, j, carry)
    requires prod == a[i] * b[j] + r[i + j] + carry
    ensures RowInvariant(r[i + j := prod % B], a, b, i, j + 1, prod / B)
  {
    ValUpdate(r, i + j, prod % B);
    ValTake(b, j);
    PowAdd(i, j);
    hide Val;
    RowAlgebra(Val(r), Val(a[..i]) * Val(b), Val(b[..j]), a[i], b[j], r[i + j], carry, prod, Pow(i), Pow(j), Pow(i + j));
  }

  lemma RowAlgebra(v: int, q: int, vb: int, x: int, y: int, old0: int, c: int, prod: nat, p: int, pj: int, pij: int)
    requires v + c * pij == q + (x * vb) * p && prod == x * y + old0 + c && pij == p * pj
    ensures v + (prod % B - old0) * pij + (prod / B) * (B * pij) == q + (x * (vb + y * pj)) * p
  {
    var m, h := prod % B, prod / B;
    assert h * (B * pij) == (h * B) * pij;
    assert (m - old0) * pij + (h * B) * pij == (m - old0 + h * B) * pij by { Distribute(m - old0, h * B, pij); }
    assert m - old0 + h * B == x * y + c;
    Distribute(x * y, c, pij);
    RowProduct(x, vb, y, p, pj);
  }

  lemma RowProduct(x: int, v: int, y: int, p: int, q: int)
    ensures (x * (v + y * q)) * p == (x * v) * p + (x * y) * (p * q)
  {
    assert x * (v + y * q) == x * v + x * (y * q);
    Distribute(x * v, x * (y * q), p);
    assert (x * (y * q)) * p == (x * y) * (p * q);
  }

  lemma RowEnds(r: seq<Limb>, a: seq<Limb>, b: seq<Limb>, i: nat, carry: Limb)
    requires i < |a| && RowInvariant(r, a, b, i, |b|, carry) && i + |b| < |r| && r[i + |b|] == 0
    ensures Val(r[i + |b| := carry]) == Val(a[..i + 1]) * Val(b)
  {
    ValUpdate(r, i + |b|, carry);
    ValTake(a, i);
    assert b[..|b|] == b;
    hide Val, Pow;
    EndAlgebra(Val(a[..i]), a[i], Pow(i), Val(b));
  }

  lemma EndAlgebra(v: int, x: int, p: int, w: int)
    ensures (v + x * p) * w == v * w + (x * w) * p
  {
    Distribute(v, x * p, w);
    assert (x * p) * w == (x * w) * p;
  }

  /** Schoolbook multiplication: no product, sum or carry leaves its two limbs. */
  method MulMag(a: seq<Limb>, b: seq<Limb>) returns (r: array<Limb>, len: nat)
    ensures len <= r.Length && fresh(r) && Normal(r[..len]) && Val(r[..len]) == Val(a) * Val(b)
  {
    hide Val, Pow, RowInvariant;
    if |a| == 0 || |b| == 0 {
      r := new Limb[0];
      NoValue(a, b);
      assert r[..0] == [];
      return r, 0;
    }
    var max := |a| + |b|;
    r := new Limb[max](_ => 0);
    AllZero(r[..], a, b);
    var i := 0;
    while i < |a|
      invariant 0 <= i <= |a| && r.Length == max
      invariant forall k :: i + |b| <= k < max ==> r[k] == 0
      invariant Val(r[..]) == Val(a[..i]) * Val(b)
    {
      var carry, j := 0, 0;
      RowStarts(r[..], a, b, i);
      while j < |b|
        invariant 0 <= j <= |b| && 0 <= carry < B && r.Length == max
        invariant forall k :: i + |b| <= k < max ==> r[k] == 0
        invariant RowInvariant(r[..], a, b, i, j, carry)
      {
        var prod := a[i] * b[j] + r[i + j] + carry;
        ProductFits(a[i], b[j], r[i + j], carry);
        RowStep(r[..], a, b, i, j, carry, prod);
        var digit: Limb := prod % B;
        ghost var was := r[..];
        r[i + j] := digit;
        assert r[..] == was[i + j := digit];
        carry := prod / B;
        j := j + 1;
      }
      RowEnds(r[..], a, b, i, carry);
      ghost var was := r[..];
      ghost var digit: Limb := carry;
      if carry > 0 { r[i + |b|] := r[i + |b|] + carry; }
      assert r[..] == was[i + |b| := digit];
      i := i + 1;
    }
    assert a[..i] == a && r[..max] == r[..];
    len := NormalizeLimbs(r, max);
  }

  lemma AllZero(r: seq<Limb>, a: seq<Limb>, b: seq<Limb>)
    requires forall k :: 0 <= k < |r| ==> r[k] == 0
    ensures Val(r) == 0 && a[..0] == [] && Val(a[..0]) * Val(b) == 0
  {
    ValZeros(r, 0);
    assert r[..0] == [];
  }

  // ---- division by one limb -------------------------------------------------

  /** From the top: what is left of the number is the quotient so far times the
      divisor, and the remainder. */
  lemma DivStep(rem: nat, x: Limb, d: nat)
    requires 0 < d < B && rem < d
    ensures var s := rem * B + x; s / d < B && s % d < d && s == (s / d) * d + s % d
  {
    var s := rem * B + x;
    MulMono(rem, d - 1, B);
    assert (d - 1) * B == d * B - B;
    DivLess(s, B, d);
  }

  /** The limbs of q from i on, in place. */
  function Above(q: seq<Limb>, i: nat): nat
    requires i <= |q|
    decreases |q| - i
  {
    if i == |q| then 0 else q[i] * Pow(i) + Above(q, i + 1)
  }

  lemma {:induction false} AboveAll(q: seq<Limb>, i: nat)
    requires i <= |q|
    ensures Val(q) == Val(q[..i]) + Above(q, i)
    decreases |q| - i
  {
    if i < |q| {
      AboveAll(q, i + 1);
      ValTake(q, i);
    } else {
      assert q[..i] == q;
    }
  }

  lemma {:induction false} AboveSame(q: seq<Limb>, r: seq<Limb>, i: nat)
    requires i <= |q| == |r| && q[i..] == r[i..]
    ensures Above(q, i) == Above(r, i)
    decreases |q| - i
  {
    if i < |q| {
      assert q[i] == q[i..][0] && r[i] == r[i..][0];
      assert q[i + 1..] == q[i..][1..] && r[i + 1..] == r[i..][1..];
      AboveSame(q, r, i + 1);
    }
  }

  ghost predicate Divided(q: seq<Limb>, a: seq<Limb>, i: nat, d: nat, rem: nat)
    requires |q| == |a| && i <= |a|
  {
    Val(a) == Val(a[..i]) + rem * Pow(i) + d * Above(q, i)
  }

  lemma DividedStep(q: seq<Limb>, r: seq<Limb>, a: seq<Limb>, i: nat, d: nat, rem: nat, s: nat)
    requires i < |a| == |q| == |r| && d > 0 && Divided(q, a, i + 1, d, rem)
    requires s == rem * B + a[i] && r[i] == s / d && r[i + 1..] == q[i + 1..]
    ensures Divided(r, a, i, d, s % d)
  {
    ValTake(a, i);
    AboveSame(q, r, i + 1);
    hide Val;
    DivAlgebra(rem, a[i], s, r[i], d, Pow(i), Above(r, i + 1));
  }

  lemma DivAlgebra(rem: int, x: int, s: nat, q: int, d: nat, p: int, above: int)
    requires d > 0 && s == rem * B + x && q == s / d
    ensures x * p + rem * (B * p) + d * above == (s % d) * p + d * (q * p + above)
  {
    assert rem * (B * p) == (rem * B) * p;
    Distribute(rem * B, x, p);
    assert s == q * d + s % d;
    Distribute(q * d, s % d, p);
    assert (q * d) * p == d * (q * p);
    assert d * (q * p + above) == d * (q * p) + d * above;
  }

  lemma DividedStarts(q: seq<Limb>, a: seq<Limb>, d: nat)
    requires |q| == |a|
    ensures Divided(q, a, |a|, d, 0)
  {
    assert a[..|a|] == a;
  }

  lemma DividedEnds(q: seq<Limb>, a: seq<Limb>, d: nat, rem: nat)
    requires |q| == |a| && Divided(q, a, 0, d, rem)
    ensures Val(a) == Val(q) * d + rem
  {
    AboveAll(q, 0);
    assert q[..0] == [] && a[..0] == [];
    assert d * Above(q, 0) == Above(q, 0) * d;
  }

  method DivSmall(a: seq<Limb>, d: Limb) returns (q: array<Limb>, rem: nat)
    requires d > 0
    ensures fresh(q) && q.Length == |a| && rem < d && Val(a) == Val(q[..]) * d + rem
  {
    hide Val, Pow, Above, Divided;
    q := new Limb[|a|](_ => 0);
    rem := 0;
    var i := |a|;
    DividedStarts(q[..], a, d);
    while i > 0
      invariant 0 <= i <= |a| && q.Length == |a| && 0 <= rem < d
      invariant Divided(q[..], a, i, d, rem)
    {
      var s := rem * B + a[i - 1];
      DivStep(rem, a[i - 1], d);
      ghost var was := q[..];
      q[i - 1] := s / d;
      assert q[..][i..] == was[i..];
      DividedStep(was, q[..], a, i - 1, d, rem, s);
      rem := s % d;
      i := i - 1;
    }
    DividedEnds(q[..], a, d, rem);
  }
}
