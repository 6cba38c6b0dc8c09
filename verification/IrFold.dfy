/** Constant folding as it runs: loops over the operands in 64-bit arithmetic
    that checks for overflow before it happens. */
module IrFold {
  import opened IrSpec
  import opened IrOptimize

  /** Division that rounds toward zero. */
  function Quot(a: int, b: int): int
    requires b != 0
  {
    if a >= 0 then (if b > 0 then a / b else -(a / -b))
    else (if b > 0 then -(-a / b) else -a / -b)
  }

  method SafeAdd(a: int, b: int) returns (ok: bool, sum: int)
    requires InInt64(a) && InInt64(b)
    ensures ok == InInt64(a + b) && (ok ==> sum == a + b)
  {
    sum := 0;
    if (b > 0 && a > INT64_MAX - b) || (b < 0 && a < INT64_MIN - b) { return false, 0; }
    return true, a + b;
  }

  lemma MulMonotone(x: int, y: int, c: nat)
    requires x <= y
    ensures x * c <= y * c
  {
    assert (y - x) * c >= 0;
  }

  lemma DivBound(m: nat, b: int, c: int)
    requires c > 0
    ensures b > m / c <==> b * c > m
  {
    var q := m / c;
    var r := m % c;
    assert m == q * c + r && 0 <= r < c;
    if b > q {
      MulMonotone(q + 1, b, c);
      assert (q + 1) * c == q * c + c;
    } else {
      MulMonotone(b, q, c);
    }
  }

  /** The product is out of range exactly when the quotient test says so. */
  lemma PositiveTimesPositive(a: int, b: int)
    requires a > 0 && b > 0
    ensures a > Quot(INT64_MAX, b) <==> a * b > INT64_MAX
  {
    DivBound(INT64_MAX, a, b);
  }

  lemma PositiveTimesNegative(a: int, b: int)
    requires a > 0 && b <= 0
    ensures b < Quot(INT64_MIN, a) <==> a * b < INT64_MIN
  {
    DivBound(-INT64_MIN, -b, a);
    assert (-b) * a == -(a * b);
  }

  lemma NegativeTimesNegative(a: int, b: int)
    requires a < 0 && b < 0
    ensures b < Quot(INT64_MAX, a) <==> a * b > INT64_MAX
  {
    DivBound(INT64_MAX, -b, -a);
    assert (-b) * (-a) == a * b;
  }

  method SafeMul(a: int, b: int) returns (ok: bool, product: int)
    requires InInt64(a) && InInt64(b)
    ensures ok == InInt64(a * b) && (ok ==> product == a * b)
  {
    product := 0;
    if a == 0 || b == 0 { return true, 0; }
    SignOfProduct(a, b);
    if a > 0 {
      if b > 0 {
        PositiveTimesPositive(a, b);
        if a > Quot(INT64_MAX, b) { return false, 0; }
      } else {
        PositiveTimesNegative(a, b);
        if b < Quot(INT64_MIN, a) { return false, 0; }
      }
    } else if b > 0 {
      PositiveTimesNegative(b, a);
      assert b * a == a * b;
      if a < Quot(INT64_MIN, b) { return false, 0; }
    } else {
      NegativeTimesNegative(a, b);
      if b < Quot(INT64_MAX, a) { return false, 0; }
    }
    if (a == -1 && b == INT64_MIN) || (b == -1 && a == INT64_MIN) {
      return false, 0;
    }
    return true, a * b;
  }

  lemma SignOfProduct(a: int, b: int)
    ensures a > 0 && b > 0 ==> a * b > 0
    ensures a < 0 && b < 0 ==> a * b > 0
    ensures (a > 0 && b < 0) || (a < 0 && b > 0) ==> a * b < 0
  {
  }

  method FoldSumLoop(vs: seq<Value>) returns (r: Option<int>)
    requires AllFixnums(vs)
    ensures r == FoldSum(0, vs)
  {
    var sum, i := 0, 0;
    while i < |vs|
      invariant i <= |vs| && InInt64(sum) && FoldSum(0, vs[..i]) == Some(sum)
    {
      assert vs[..i + 1][..i] == vs[..i];
      var ok, s := SafeAdd(sum, vs[i].n);
      if !ok {
        SumGivesUp(0, vs, i + 1);
        return None;
      }
      sum := s;
      i := i + 1;
    }
    assert vs[..i] == vs;
    return Some(sum);
  }

  method FoldDifferenceLoop(start: int, vs: seq<Value>) returns (r: Option<int>)
    requires AllFixnums(vs) && IsFixnum(Int(start))
    ensures r == FoldDifference(start, vs)
  {
    var rest, i := start, 0;
    while i < |vs|
      invariant i <= |vs| && InInt64(rest) && FoldDifference(start, vs[..i]) == Some(rest)
    {
      assert vs[..i + 1][..i] == vs[..i];
      var ok, s := SafeAdd(rest, -vs[i].n);
      if !ok {
        DifferenceGivesUp(start, vs, i + 1);
        return None;
      }
      rest := s;
      i := i + 1;
    }
    assert vs[..i] == vs;
    return Some(rest);
  }

  method FoldProductLoop(vs: seq<Value>) returns (r: Option<int>)
    requires AllFixnums(vs)
    ensures r == FoldProduct(vs)
  {
    var product, i := 1, 0;
    while i < |vs|
      invariant i <= |vs| && InInt64(product) && FoldProduct(vs[..i]) == Some(product)
    {
      assert vs[..i + 1][..i] == vs[..i];
      var ok, s := SafeMul(product, vs[i].n);
      if !ok {
        ProductGivesUp(vs, i + 1);
        return None;
      }
      product := s;
      i := i + 1;
    }
    assert vs[..i] == vs;
    return Some(product);
  }

  lemma {:induction false} SumGivesUp(start: int, vs: seq<Value>, i: nat)
    requires AllFixnums(vs) && i <= |vs| && FoldSum(start, vs[..i]).None?
    ensures FoldSum(start, vs).None?
  {
    if i == |vs| {
      assert vs[..i] == vs;
    } else {
      assert vs[..|vs| - 1][..i] == vs[..i];
      SumGivesUp(start, vs[..|vs| - 1], i);
    }
  }

  lemma {:induction false} DifferenceGivesUp(start: int, vs: seq<Value>, i: nat)
    requires AllFixnums(vs) && i <= |vs| && FoldDifference(start, vs[..i]).None?
    ensures FoldDifference(start, vs).None?
  {
    if i == |vs| {
      assert vs[..i] == vs;
    } else {
      assert vs[..|vs| - 1][..i] == vs[..i];
      DifferenceGivesUp(start, vs[..|vs| - 1], i);
    }
  }

  lemma {:induction false} ProductGivesUp(vs: seq<Value>, i: nat)
    requires AllFixnums(vs) && i <= |vs| && FoldProduct(vs[..i]).None?
    ensures FoldProduct(vs).None?
  {
    if i == |vs| {
      assert vs[..i] == vs;
    } else {
      assert vs[..|vs| - 1][..i] == vs[..i];
      ProductGivesUp(vs[..|vs| - 1], i);
    }
  }

  /** Compares each number with the previous one and stops at the first pair that
      is not in order. */
  method FoldOrderLoop(p: Prim, vs: seq<Value>) returns (r: Option<Value>)
    ensures r == FoldOrder(p, vs)
  {
    if |vs| <= 1 { return Some(True); }
    if !IsFixnum(vs[0]) { return None; }
    var prev, i := vs[0].n, 1;
    while i < |vs|
      invariant 1 <= i <= |vs| && IsFixnum(vs[i - 1]) && prev == vs[i - 1].n
      invariant FoldOrder(p, vs[i - 1..]) == FoldOrder(p, vs)
    {
      assert vs[i - 1..][1..] == vs[i..];
      if !IsFixnum(vs[i]) { return None; }
      if !Related(p, prev, vs[i].n) { return Some(False); }
      prev := vs[i].n;
      i := i + 1;
    }
    return Some(True);
  }

  method FoldPrimCall(p: Prim, vs: seq<Value>) returns (r: Option<Value>)
    ensures r == FoldPrim(p, vs)
    ensures r.Some? ==> BuiltinResult(p, vs) == Ok(r.value)
  {
    if |vs| > MAX_FOLD { return None; }
    var allFixnums, i := true, 0;
    while i < |vs|
      invariant i <= |vs| && (allFixnums <==> forall k :: 0 <= k < i ==> IsFixnum(vs[k]))
    {
      if !IsFixnum(vs[i]) { allFixnums := false; }
      i := i + 1;
    }
    match p {
      case Add =>
        if !allFixnums { return None; }
        var s := FoldSumLoop(vs);
        r := AsFixnum(s);
      case Sub =>
        if |vs| == 0 || !allFixnums { return None; }
        if |vs| == 1 {
          r := AsFixnum(Some(-vs[0].n));
        } else {
          var s := FoldDifferenceLoop(vs[0].n, vs[1..]);
          r := AsFixnum(s);
        }
      case Mul =>
        if !allFixnums { return None; }
        var s := FoldProductLoop(vs);
        r := AsFixnum(s);
      case Not =>
        r := if |vs| == 1 then Some(Bool(vs[0] == False)) else None;
      case _ =>
        r := FoldOrderLoop(p, vs);
    }
    if r.Some? { FoldIsBuiltin(p, vs); }
  }
}
