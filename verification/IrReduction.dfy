/** What the analysis and the optimizer find: every constant there is to find, every
    fold that can be made, and nothing left to do in the result. */
module IrReduction {
  import opened IrSpec
  import opened IrAnalyze
  import opened IrOptimize

  // ---- the primitives on integers -----------------------------------------------

  lemma {:induction false} OrderedIs(p: Prim, vs: seq<Value>)
    requires AllInts(vs)
    ensures Ordered(p, vs) == Ok(Bool(forall i :: 0 <= i < |vs| - 1 ==> Related(p, vs[i].n, vs[i + 1].n)))
  {
    if |vs| > 1 {
      var rest := vs[1..];
      OrderedIs(p, rest);
      hide Related;
      if Related(p, vs[0].n, vs[1].n) {
        assert (forall i :: 0 <= i < |rest| - 1 ==> Related(p, rest[i].n, rest[i + 1].n)) <==>
               (forall i :: 0 <= i < |vs| - 1 ==> Related(p, vs[i].n, vs[i + 1].n)) by {
          RestInOrder(p, vs);
        }
      }
    }
  }

  lemma RestInOrder(p: Prim, vs: seq<Value>)
    requires AllInts(vs) && |vs| > 1 && Related(p, vs[0].n, vs[1].n)
    ensures (forall i :: 0 <= i < |vs[1..]| - 1 ==> Related(p, vs[1..][i].n, vs[1..][i + 1].n)) <==>
            (forall i :: 0 <= i < |vs| - 1 ==> Related(p, vs[i].n, vs[i + 1].n))
  {
    hide Related;
    var rest := vs[1..];
    if forall i :: 0 <= i < |rest| - 1 ==> Related(p, rest[i].n, rest[i + 1].n) {
      forall i | 0 <= i < |vs| - 1 ensures Related(p, vs[i].n, vs[i + 1].n) {
        if i > 0 { assert Related(p, rest[i - 1].n, rest[i].n); }
      }
    }
    if forall i :: 0 <= i < |vs| - 1 ==> Related(p, vs[i].n, vs[i + 1].n) {
      forall i | 0 <= i < |rest| - 1 ensures Related(p, rest[i].n, rest[i + 1].n) {
        assert Related(p, vs[i + 1].n, vs[i + 2].n);
      }
    }
  }

  lemma {:induction false} AllEqualIs(first: Value, vs: seq<Value>)
    requires first.Int? && AllInts(vs)
    ensures AllEqual(first, vs) == Ok(Bool(forall v <- vs :: v.n == first.n))
  {
    if vs != [] {
      AllEqualIs(first, vs[1..]);
      assert vs == [vs[0]] + vs[1..];
    }
  }

  /** The comparisons of integers: each is below, or at most, the next one. */
  lemma IncreasingIs(vs: seq<Value>)
    requires AllInts(vs)
    ensures BuiltinResult(Lt, vs) == Ok(Bool(forall i :: 0 <= i < |vs| - 1 ==> vs[i].n < vs[i + 1].n))
    ensures BuiltinResult(Le, vs) == Ok(Bool(forall i :: 0 <= i < |vs| - 1 ==> vs[i].n <= vs[i + 1].n))
  {
    OrderedIs(Lt, vs);
    OrderedIs(Le, vs);
    hide Ordered;
  }

  /** Each is above, or at least, the next one. */
  lemma DecreasingIs(vs: seq<Value>)
    requires AllInts(vs)
    ensures BuiltinResult(Gt, vs) == Ok(Bool(forall i :: 0 <= i < |vs| - 1 ==> vs[i].n > vs[i + 1].n))
    ensures BuiltinResult(Ge, vs) == Ok(Bool(forall i :: 0 <= i < |vs| - 1 ==> vs[i].n >= vs[i + 1].n))
  {
    OrderedIs(Gt, vs);
    OrderedIs(Ge, vs);
    hide Ordered;
  }

  /** (= a b ...) of integers: all are equal. */
  lemma EqualityIs(vs: seq<Value>)
    requires AllInts(vs)
    ensures BuiltinResult(NumEq, vs) == Ok(Bool(forall i, j :: 0 <= i < |vs| && 0 <= j < |vs| ==> vs[i].n == vs[j].n))
  {
    if vs != [] {
      AllEqualIs(vs[0], vs[1..]);
      hide AllEqual, Ordered;
      assert forall i :: 0 < i < |vs| ==> vs[i] == vs[1..][i - 1];
      if forall v <- vs[1..] :: v.n == vs[0].n {
        assert forall i :: 0 < i < |vs| ==> vs[i] in vs[1..];
      } else {
        var v :| v in vs[1..] && v.n != vs[0].n;
        var i :| 0 <= i < |vs[1..]| && vs[1..][i] == v;
        assert vs[i + 1].n != vs[0].n;
      }
    }
  }

  lemma {:induction false} SumOfBoth(xs: seq<Value>, ys: seq<Value>)
    requires AllInts(xs) && AllInts(ys)
    ensures AllInts(xs + ys) && Sum(xs + ys) == Sum(xs) + Sum(ys)
  {
    if ys == [] {
      assert xs + ys == xs;
    } else {
      SumOfBoth(xs, ys[..|ys| - 1]);
      assert (xs + ys)[..|xs + ys| - 1] == xs + ys[..|ys| - 1];
    }
  }

  lemma {:induction false} ProductOfBoth(xs: seq<Value>, ys: seq<Value>)
    requires AllInts(xs) && AllInts(ys)
    ensures AllInts(xs + ys) && Product(xs + ys) == Product(xs) * Product(ys)
  {
    if ys == [] {
      assert xs + ys == xs;
    } else {
      ProductOfBoth(xs, ys[..|ys| - 1]);
      assert (xs + ys)[..|xs + ys| - 1] == xs + ys[..|ys| - 1];
      assert (Product(xs) * Product(ys[..|ys| - 1])) * ys[|ys| - 1].n == Product(xs) * (Product(ys[..|ys| - 1]) * ys[|ys| - 1].n);
    }
  }

  /** A sum is built from those of single numbers. */
  lemma SumIs(a: int, vs: seq<Value>)
    requires AllInts(vs)
    ensures BuiltinResult(Add, []) == Ok(Int(0))
    ensures BuiltinResult(Add, vs) == Ok(Int(Sum(vs))) && BuiltinResult(Add, [Int(a)] + vs) == Ok(Int(a + Sum(vs)))
  {
    SumOfBoth([Int(a)], vs);
    assert Sum([Int(a)]) == a by { assert [Int(a)][..0] == []; }
    assert Sum([]) == 0;
    hide Sum;
  }

  /** And a product from those of single numbers. */
  lemma ProductIs(a: int, vs: seq<Value>)
    requires AllInts(vs)
    ensures BuiltinResult(Mul, []) == Ok(Int(1))
    ensures BuiltinResult(Mul, vs) == Ok(Int(Product(vs))) && BuiltinResult(Mul, [Int(a)] + vs) == Ok(Int(a * Product(vs)))
  {
    ProductOfBoth([Int(a)], vs);
    assert Product([Int(a)]) == a by { assert [Int(a)][..0] == []; }
    assert Product([]) == 1;
    hide Product;
  }

  /** A difference takes all numbers but the first away from the first, a single number
      is negated. */
  lemma DifferenceIs(a: int, vs: seq<Value>)
    requires AllInts(vs)
    ensures BuiltinResult(Sub, [Int(a)] + vs) == Ok(Int(if vs == [] then -a else a - Sum(vs)))
  {
    hide Sum;
    assert ([Int(a)] + vs)[1..] == vs;
  }

  // ---- when a call folds -----------------------------------------------------------

  /** The product of the first k numbers fits 64 bits. */
  ghost predicate Fits(vs: seq<Value>, k: nat)
    requires AllInts(vs) && k <= |vs|
  {
    InInt64(Product(vs[..k]))
  }

  /** No product on the way, from the left, leaves 64 bits. */
  ghost predicate ProductsFit(vs: seq<Value>)
    requires AllInts(vs)
  {
    forall k :: 0 < k <= |vs| ==> Fits(vs, k)
  }

  /** The first pair that is not in order is at k, and fixnums come up to there. */
  ghost predicate FailsAt(p: Prim, vs: seq<Value>, k: nat) {
    && k + 1 < |vs|
    && (forall i :: 0 <= i < k + 2 ==> IsFixnum(vs[i]))
    && !Related(p, vs[k].n, vs[k + 1].n)
    && forall i :: 0 <= i < k ==> Related(p, vs[i].n, vs[i + 1].n)
  }

  lemma {:induction false} SumBound(vs: seq<Value>)
    requires AllFixnums(vs) && AllInts(vs)
    ensures FIXNUM_MIN * |vs| <= Sum(vs) <= FIXNUM_MAX * |vs|
  {
    if vs != [] { SumBound(vs[..|vs| - 1]); }
  }

  lemma {:induction false} FoldSumSome(start: int, vs: seq<Value>)
    requires AllFixnums(vs) && |vs| <= MAX_FOLD && IsFixnum(Int(start))
    ensures FoldSum(start, vs).Some? && FoldDifference(start, vs).Some?
  {
    if vs != [] {
      var front := vs[..|vs| - 1];
      FoldSumSome(start, front);
      FoldSumIs(start, front);
      FoldDifferenceIs(start, front);
      SumBound(front);
    }
  }

  lemma {:induction false} FoldProductSome(vs: seq<Value>)
    requires AllFixnums(vs) && AllInts(vs)
    ensures FoldProduct(vs).Some? <==> ProductsFit(vs)
  {
    if vs != [] {
      var front := vs[..|vs| - 1];
      FoldProductSome(front);
      if FoldProduct(front).Some? { FoldProductIs(front); }
      FitsLonger(vs);
    }
  }

  lemma FitsLonger(vs: seq<Value>)
    requires AllInts(vs) && vs != []
    ensures ProductsFit(vs) <==> ProductsFit(vs[..|vs| - 1]) && InInt64(Product(vs))
  {
    hide Product;
    var front := vs[..|vs| - 1];
    assert vs[..|vs|] == vs;
    assert Fits(vs, |vs|) <==> InInt64(Product(vs));
    forall k: nat | 0 < k <= |front| ensures Fits(vs, k) <==> Fits(front, k) {
      assert vs[..k] == front[..k];
    }
  }

  lemma {:induction false} FoldOrderSome(p: Prim, vs: seq<Value>)
    ensures FoldOrder(p, vs).Some? <==> |vs| <= 1 || AllFixnums(vs) || exists k: nat :: FailsAt(p, vs, k)
  {
    if |vs| > 1 {
      if exists k: nat :: FailsAt(p, vs, k) { FailsEarly(p, vs); }
      if IsFixnum(vs[0]) && IsFixnum(vs[1]) {
        if Related(p, vs[0].n, vs[1].n) {
          var rest := vs[1..];
          FoldOrderSome(p, rest);
          hide Related, FailsAt;
          FailsLater(p, vs);
          assert forall i :: 0 < i < |vs| ==> vs[i] == rest[i - 1];
        } else {
          assert FailsAt(p, vs, 0);
        }
      }
    }
  }

  lemma FailsEarly(p: Prim, vs: seq<Value>)
    requires exists k: nat :: FailsAt(p, vs, k)
    ensures |vs| > 1 && IsFixnum(vs[0]) && IsFixnum(vs[1])
  {
  }

  lemma FailsLater(p: Prim, vs: seq<Value>)
    requires |vs| > 1 && IsFixnum(vs[0]) && IsFixnum(vs[1]) && Related(p, vs[0].n, vs[1].n)
    ensures (exists k: nat :: FailsAt(p, vs, k)) <==> exists k: nat :: FailsAt(p, vs[1..], k)
  {
    if exists k: nat :: FailsAt(p, vs, k) {
      var k: nat :| FailsAt(p, vs, k);
      FailsInRest(p, vs, k);
    }
    if exists k: nat :: FailsAt(p, vs[1..], k) {
      var k: nat :| FailsAt(p, vs[1..], k);
      FailsBehind(p, vs, k);
    }
  }

  lemma FailsInRest(p: Prim, vs: seq<Value>, k: nat)
    requires |vs| > 1 && IsFixnum(vs[0]) && IsFixnum(vs[1]) && Related(p, vs[0].n, vs[1].n) && FailsAt(p, vs, k)
    ensures k > 0 && FailsAt(p, vs[1..], k - 1)
  {
    hide Related;
    var rest := vs[1..];
    assert k > 0;
    assert forall i :: 0 <= i < k + 1 ==> rest[i] == vs[i + 1];
    forall i | 0 <= i < k - 1 ensures Related(p, rest[i].n, rest[i + 1].n) {
      assert rest[i] == vs[i + 1] && rest[i + 1] == vs[i + 2];
    }
  }

  lemma FailsBehind(p: Prim, vs: seq<Value>, k: nat)
    requires |vs| > 1 && IsFixnum(vs[0]) && IsFixnum(vs[1]) && Related(p, vs[0].n, vs[1].n) && FailsAt(p, vs[1..], k)
    ensures FailsAt(p, vs, k + 1)
  {
    hide Related;
    var rest := vs[1..];
    forall i | 0 <= i < k + 3 ensures IsFixnum(vs[i]) {
      if i > 0 { assert vs[i] == rest[i - 1]; }
    }
    forall i | 0 <= i < k + 1 ensures Related(p, vs[i].n, vs[i + 1].n) {
      if i > 0 { assert Related(p, rest[i - 1].n, rest[i].n); }
    }
  }

  /** The known operands a call folds on: at most 16, fixnums as far as they are looked
      at, with a fixnum for result; every product on the way also has to fit 64 bits. */
  ghost predicate CanFold(p: Prim, vs: seq<Value>) {
    && |vs| <= MAX_FOLD
    && match p
       case Add => AllFixnums(vs) && AllInts(vs) && IsFixnum(Int(Sum(vs)))
       case Sub => vs != [] && AllFixnums(vs) && AllInts(vs[1..])
                   && IsFixnum(Int(if |vs| == 1 then -vs[0].n else vs[0].n - Sum(vs[1..])))
       case Mul => AllFixnums(vs) && AllInts(vs) && ProductsFit(vs) && IsFixnum(Int(Product(vs)))
       case Not => |vs| == 1
       case _ => |vs| <= 1 || AllFixnums(vs) || exists k: nat :: FailsAt(p, vs, k)
  }

  /** A call of a primitive on known operands folds exactly when it can. */
  lemma FoldsIff(p: Prim, vs: seq<Value>)
    ensures FoldPrim(p, vs).Some? <==> CanFold(p, vs)
  {
    if |vs| <= MAX_FOLD {
      match p
      case Add => SumFoldsIff(vs);
      case Sub => DifferenceFoldsIff(vs);
      case Mul => ProductFoldsIff(vs);
      case Not =>
      case _ => FoldOrderSome(p, vs);
    }
  }

  lemma SumFoldsIff(vs: seq<Value>)
    requires |vs| <= MAX_FOLD
    ensures FoldPrim(Add, vs).Some? <==> CanFold(Add, vs)
  {
    if AllFixnums(vs) {
      FoldSumSome(0, vs);
      FoldSumIs(0, vs);
      hide FoldSum, Sum;
    }
  }

  lemma DifferenceFoldsIff(vs: seq<Value>)
    requires |vs| <= MAX_FOLD
    ensures FoldPrim(Sub, vs).Some? <==> CanFold(Sub, vs)
  {
    if vs != [] && AllFixnums(vs) {
      FoldSumSome(vs[0].n, vs[1..]);
      FoldDifferenceIs(vs[0].n, vs[1..]);
      hide FoldDifference, Sum;
    }
  }

  lemma ProductFoldsIff(vs: seq<Value>)
    requires |vs| <= MAX_FOLD
    ensures FoldPrim(Mul, vs).Some? <==> CanFold(Mul, vs)
  {
    if AllFixnums(vs) {
      FoldProductSome(vs);
      if FoldProduct(vs).Some? { FoldProductIs(vs); }
      hide FoldProduct, Product, ProductsFit;
    }
  }

  // ---- the constants there are -------------------------------------------------------

  /** The tree with a variable for every lambda. */
  function Masked(n: Node): Node
    decreases n, 0
  {
    Node(None,
      match n.kind
      case If(t, c, a) => If(Masked(t), Masked(c), if a.Some? then Some(Masked(a.value)) else None)
      case Lambda(_, _) => Var(Name(0, 0))
      case Seq(items) => Seq(MaskedAll(items))
      case Call(f, args) => Call(Masked(f), MaskedAll(args))
      case Set(x, v) => Set(x, Masked(v))
      case Define(x, v) => Define(x, Masked(v))
      case And(items) => And(MaskedAll(items))
      case Or(items) => Or(MaskedAll(items))
      case PrimCall(p, x, args) => PrimCall(p, x, MaskedAll(args))
      case _ => n.kind)
  }

  function MaskedAll(ns: Nodes): Nodes
    decreases ns, 0
  {
    if ns.Nil? then Nil else Cons(Masked(ns.head), MaskedAll(ns.tail))
  }

  /** An interpretation in which nothing outside the tree can be had. */
  function Blank(): Interp {
    Interp(
      (x: Name, w: World) => Raise(0),
      (x: Name, v: Value, w: World) => (Raise(0), w),
      (x: Name, v: Value, w: World) => (Raise(0), w),
      (f: Value, vs: seq<Value>, w: World) => (Raise(0), w),
      (form: nat, w: World) => (Raise(0), w),
      (form: nat) => None,
      (params: nat, body: Nodes) => Void)
  }

  /** The node has the value in every interpretation and every world, without effects. */
  ghost predicate Always(n: Node, v: Value) {
    forall I: Interp :: IsConstant(n, v, I)
  }

  /** With lambdas taken for variables, the analysis finds a constant exactly when the
      node has that value in every interpretation and every world. */
  lemma AnalyzeFindsIff(n: Node, v: Value)
    ensures Analyze(n).known == Some(v) <==> Always(Masked(n), v)
  {
    var m := Masked(n);
    if Analyze(n).known == Some(v) {
      forall I: Interp, w: World ensures Eval(m, I, w) == (Ok(v), w) { FoundIsValue(n, I, w); }
    }
    if Always(m, v) {
      var w: World := 0;
      assert IsConstant(m, v, Blank());
      assert Eval(m, Blank(), w) == (Ok(v), w);
      FoundIsValue(n, Blank(), w);
      NotFoundRaises(n, w);
    }
  }

  lemma {:induction false} FoundIsValue(n: Node, I: Interp, w: World)
    ensures Analyze(n).known.Some? ==> Eval(Masked(n), I, w) == (Ok(Analyze(n).known.value), w)
    decreases n, 0
  {
    match n.kind
    case If(t, c, a) =>
      FoundIsValue(t, I, w);
      FoundIsValue(c, I, w);
      if a.Some? { FoundIsValue(a.value, I, w); }
    case Seq(items) => FoundAllIsValue(items, I, w, Void);
    case And(items) => FoundUntilIsValue(items, false, I, w);
    case Or(items) => FoundUntilIsValue(items, true, I, w);
    case _ =>
  }

  lemma {:induction false} FoundAllIsValue(ns: Nodes, I: Interp, w: World, last: Value)
    ensures KnownSeq(AnalyzeAll(ns), last).Some? ==>
              EvalSeq(MaskedAll(ns), I, w, last) == (Ok(KnownSeq(AnalyzeAll(ns), last).value), w)
    decreases ns, 0
  {
    if ns.Cons? {
      FoundIsValue(ns.head, I, w);
      if Analyze(ns.head).known.Some? { FoundAllIsValue(ns.tail, I, w, Analyze(ns.head).known.value); }
    }
  }

  lemma {:induction false} FoundUntilIsValue(ns: Nodes, stop: bool, I: Interp, w: World)
    ensures AnalyzeUntil(ns, stop).1.Some? ==>
              EvalUntil(MaskedAll(ns), stop, I, w) == (Ok(AnalyzeUntil(ns, stop).1.value), w)
    decreases ns, 0
  {
    if ns.Cons? {
      FoundIsValue(ns.head, I, w);
      FoundUntilIsValue(ns.tail, stop, I, w);
    }
  }

  lemma {:induction false} NotFoundRaises(n: Node, w: World)
    ensures Analyze(n).known.None? ==> Eval(Masked(n), Blank(), w).0.Raise?
    decreases n, 0
  {
    var I := Blank();
    match n.kind
    case If(t, c, a) =>
      FoundIsValue(t, I, w);
      NotFoundRaises(t, w);
      NotFoundRaises(c, w);
      if a.Some? { NotFoundRaises(a.value, w); }
    case Seq(items) => NotFoundAllRaises(items, w, Void);
    case And(items) => NotFoundUntilRaises(items, false, w);
    case Or(items) => NotFoundUntilRaises(items, true, w);
    case _ =>
  }

  lemma {:induction false} NotFoundAllRaises(ns: Nodes, w: World, last: Value)
    ensures KnownSeq(AnalyzeAll(ns), last).None? ==> EvalSeq(MaskedAll(ns), Blank(), w, last).0.Raise?
    decreases ns, 0
  {
    if ns.Cons? {
      FoundIsValue(ns.head, Blank(), w);
      NotFoundRaises(ns.head, w);
      if Analyze(ns.head).known.Some? { NotFoundAllRaises(ns.tail, w, Analyze(ns.head).known.value); }
    }
  }

  lemma {:induction false} NotFoundUntilRaises(ns: Nodes, stop: bool, w: World)
    ensures AnalyzeUntil(ns, stop).1.None? ==> EvalUntil(MaskedAll(ns), stop, Blank(), w).0.Raise?
    decreases ns, 0
  {
    if ns.Cons? {
      FoundIsValue(ns.head, Blank(), w);
      NotFoundRaises(ns.head, w);
      NotFoundUntilRaises(ns.tail, stop, w);
    }
  }

  // ---- the names that are assigned -----------------------------------------------------

  /** The nodes of a tree that are not inside a lambda. */
  function Parts(n: Node): set<Node>
    decreases n, 0
  {
    {n} + Below(n)
  }

  /** The parts of a node other than itself. */
  function Below(n: Node): set<Node>
    decreases n.kind, 0
  {
    match n.kind
    case If(t, c, a) => Parts(t) + Parts(c) + (if a.Some? then Parts(a.value) else {})
    case Seq(items) => AllParts(items)
    case Call(f, args) => Parts(f) + AllParts(args)
    case Set(_, v) => Parts(v)
    case Define(_, v) => Parts(v)
    case And(items) => AllParts(items)
    case Or(items) => AllParts(items)
    case PrimCall(_, _, args) => AllParts(args)
    case _ => {}
  }

  function AllParts(ns: Nodes): set<Node>
    decreases ns, 0
  {
    if ns.Nil? then {} else Parts(ns.head) + AllParts(ns.tail)
  }

  /** The node itself assigns or defines a name of the primitive. */
  predicate Rebinds(n: Node, I: Interp, p: Prim) {
    match n.kind
    case Set(x, _) => PrimOf(x) == Some(p)
    case Define(x, _) => PrimOf(x) == Some(p)
    case Raw(form) => I.rawTarget(form).Some? && PrimOf(Name(I.rawTarget(form).value, 0)) == Some(p)
    case _ => false
  }

  ghost predicate AnyRebinds(ms: set<Node>, I: Interp, p: Prim) {
    exists m :: m in ms && Rebinds(m, I, p)
  }

  lemma EitherRebinds(ms: set<Node>, ns: set<Node>, I: Interp, p: Prim)
    ensures AnyRebinds(ms + ns, I, p) <==> AnyRebinds(ms, I, p) || AnyRebinds(ns, I, p)
  {
    hide Rebinds;
    if AnyRebinds(ms, I, p) {
      var m :| m in ms && Rebinds(m, I, p);
      assert m in ms + ns;
    }
    if AnyRebinds(ns, I, p) {
      var m :| m in ns && Rebinds(m, I, p);
      assert m in ms + ns;
    }
  }

  /** A primitive is disabled exactly when a node outside every lambda rebinds its name. */
  lemma {:induction false} RedefinedIff(n: Node, I: Interp, p: Prim)
    ensures p in Redefined(n, I, 0) <==> AnyRebinds(Parts(n), I, p)
    decreases n, 0
  {
    EitherRebinds({n}, Below(n), I, p);
    assert AnyRebinds({n}, I, p) <==> Rebinds(n, I, p) by {
      assert n in {n};
    }
    BelowRedefined(n, I, p);
    hide AnyRebinds, Below;
    assert Parts(n) == {n} + Below(n);
  }

  lemma {:induction false} BelowRedefined(n: Node, I: Interp, p: Prim)
    ensures p in Redefined(n, I, 0) <==> Rebinds(n, I, p) || AnyRebinds(Below(n), I, p)
    decreases n.kind, 0
  {
    hide AnyRebinds, Parts;
    assert !AnyRebinds({}, I, p) by { NothingRebinds(I, p); }
    match n.kind
    case If(t, c, a) =>
      RedefinedIff(t, I, p);
      RedefinedIff(c, I, p);
      EitherRebinds(Parts(t), Parts(c), I, p);
      if a.Some? { RedefinedIff(a.value, I, p); }
      EitherRebinds(Parts(t) + Parts(c), if a.Some? then Parts(a.value) else {}, I, p);
    case Lambda(_, body) => NoneInLambda(body, I, 1);
    case Seq(items) => AllRedefinedIff(items, I, p);
    case Call(f, args) =>
      RedefinedIff(f, I, p);
      AllRedefinedIff(args, I, p);
      EitherRebinds(Parts(f), AllParts(args), I, p);
    case Set(_, v) => RedefinedIff(v, I, p);
    case Define(_, v) => RedefinedIff(v, I, p);
    case And(items) => AllRedefinedIff(items, I, p);
    case Or(items) => AllRedefinedIff(items, I, p);
    case PrimCall(_, _, args) => AllRedefinedIff(args, I, p);
    case _ =>
  }

  lemma NothingRebinds(I: Interp, p: Prim)
    ensures !AnyRebinds({}, I, p)
  {
  }

  lemma {:induction false} AllRedefinedIff(ns: Nodes, I: Interp, p: Prim)
    ensures p in RedefinedAll(ns, I, 0) <==> AnyRebinds(AllParts(ns), I, p)
    decreases ns, 0
  {
    if ns.Cons? {
      RedefinedIff(ns.head, I, p);
      AllRedefinedIff(ns.tail, I, p);
      EitherRebinds(Parts(ns.head), AllParts(ns.tail), I, p);
    }
  }

  lemma {:induction false} NothingInLambda(n: Node, I: Interp, depth: nat)
    requires depth > 0
    ensures Redefined(n, I, depth) == {}
    decreases n, 0
  {
    match n.kind
    case If(t, c, a) =>
      NothingInLambda(t, I, depth);
      NothingInLambda(c, I, depth);
      if a.Some? { NothingInLambda(a.value, I, depth); }
    case Lambda(_, body) => NoneInLambda(body, I, depth + 1);
    case Seq(items) => NoneInLambda(items, I, depth);
    case Call(f, args) => NothingInLambda(f, I, depth); NoneInLambda(args, I, depth);
    case Set(_, v) => NothingInLambda(v, I, depth);
    case Define(_, v) => NothingInLambda(v, I, depth);
    case And(items) => NoneInLambda(items, I, depth);
    case Or(items) => NoneInLambda(items, I, depth);
    case PrimCall(_, _, args) => NoneInLambda(args, I, depth);
    case _ =>
  }

  lemma {:induction false} NoneInLambda(ns: Nodes, I: Interp, depth: nat)
    requires depth > 0
    ensures RedefinedAll(ns, I, depth) == {}
    decreases ns, 0
  {
    if ns.Cons? {
      NothingInLambda(ns.head, I, depth);
      NoneInLambda(ns.tail, I, depth);
    }
  }

  // ---- nothing is left to do --------------------------------------------------------------

  /** A neutral operand beside a known integer. */
  predicate HasNeutral(p: Prim, args: Nodes) {
    && args.Cons? && args.tail.Cons? && args.tail.tail.Nil?
    && var a, b := args.head.known, args.tail.head.known;
       match p
       case Add => a.Some? && b.Some? && a.value.Int? && b.value.Int? && (a.value.n == 0 || b.value.n == 0)
       case Sub => a.Some? && b.Some? && a.value.Int? && b == Some(Int(0))
       case Mul => a.Some? && b.Some? && a.value.Int? && b.value.Int? && (a.value.n == 1 || b.value.n == 1)
       case _ => false
  }

  ghost predicate Foldable(p: Prim, args: Nodes) {
    HasNeutral(p, args) || (KnownArgs(args).Some? && CanFold(p, KnownArgs(args).value))
  }

  /** No test is known, no sequence stands in a sequence or holds less than two items,
      and no call of a primitive that may be folded still can be. */
  ghost predicate Reduced(n: Node, disabled: set<Prim>, depth: nat)
    decreases n, 0
  {
    match n.kind
    case If(t, c, a) =>
      && t.known.None? && Reduced(t, disabled, depth) && Reduced(c, disabled, depth)
      && (a.Some? ==> Reduced(a.value, disabled, depth))
    case Lambda(_, body) => AllReduced(body, disabled, depth + 1)
    case Seq(items) => items.Cons? && items.tail.Cons? && NoSeqs(items) && AllReduced(items, disabled, depth)
    case Call(f, args) => Reduced(f, disabled, depth) && AllReduced(args, disabled, depth)
    case Set(_, v) => Reduced(v, disabled, depth)
    case Define(_, v) => Reduced(v, disabled, depth)
    case And(items) => AllReduced(items, disabled, depth)
    case Or(items) => AllReduced(items, disabled, depth)
    case PrimCall(p, _, args) =>
      AllReduced(args, disabled, depth) && (Enabled(p, disabled, depth) ==> !Foldable(p, args))
    case _ => true
  }

  ghost predicate AllReduced(ns: Nodes, disabled: set<Prim>, depth: nat)
    decreases ns, 0
  {
    ns.Cons? ==> Reduced(ns.head, disabled, depth) && AllReduced(ns.tail, disabled, depth)
  }

  predicate NoSeqs(ns: Nodes) {
    ns.Cons? ==> !ns.head.kind.Seq? && NoSeqs(ns.tail)
  }

  /** The optimizer leaves nothing it could still do with what the analysis told it. */
  lemma {:induction false} OptimizeReduces(n: Node, disabled: set<Prim>, depth: nat)
    ensures Reduced(Optimize(n, disabled, depth), disabled, depth)
    decreases n, 0
  {
    match n.kind
    case If(t, c, a) =>
      OptimizeReduces(t, disabled, depth);
      OptimizeReduces(c, disabled, depth);
      if a.Some? { OptimizeReduces(a.value, disabled, depth); }
      IfReduced(n.(kind := If(Optimize(t, disabled, depth), Optimize(c, disabled, depth),
                              if a.Some? then Some(Optimize(a.value, disabled, depth)) else None)), disabled, depth);
    case Lambda(_, body) => OptimizeAllReduces(body, disabled, depth + 1);
    case Seq(items) =>
      OptimizeAllReduces(items, disabled, depth);
      FlattenReduced(OptimizeAll(items, disabled, depth), disabled, depth);
    case Call(f, args) => OptimizeReduces(f, disabled, depth); OptimizeAllReduces(args, disabled, depth);
    case Set(_, v) => OptimizeReduces(v, disabled, depth);
    case Define(_, v) => OptimizeReduces(v, disabled, depth);
    case And(items) => OptimizeAllReduces(items, disabled, depth);
    case Or(items) => OptimizeAllReduces(items, disabled, depth);
    case PrimCall(_, _, args) =>
      OptimizeAllReduces(args, disabled, depth);
      PrimReduced(n, OptimizeAll(args, disabled, depth), disabled, depth);
    case _ =>
  }

  lemma {:induction false} OptimizeAllReduces(ns: Nodes, disabled: set<Prim>, depth: nat)
    ensures AllReduced(OptimizeAll(ns, disabled, depth), disabled, depth)
    decreases ns, 0
  {
    if ns.Cons? {
      OptimizeReduces(ns.head, disabled, depth);
      OptimizeAllReduces(ns.tail, disabled, depth);
    }
  }

  lemma IfReduced(n: Node, disabled: set<Prim>, depth: nat)
    requires n.kind.If? && Reduced(n.kind.test, disabled, depth) && Reduced(n.kind.consequent, disabled, depth)
    requires n.kind.alternate.Some? ==> Reduced(n.kind.alternate.value, disabled, depth)
    ensures Reduced(TakeKnown(SwapNot(n, disabled, depth)), disabled, depth)
  {
  }

  lemma {:induction false} AppendReduced(xs: Nodes, ys: Nodes, disabled: set<Prim>, depth: nat)
    requires AllReduced(xs, disabled, depth) && AllReduced(ys, disabled, depth) && NoSeqs(xs) && NoSeqs(ys)
    ensures AllReduced(Append(xs, ys), disabled, depth) && NoSeqs(Append(xs, ys))
  {
    if xs.Cons? { AppendReduced(xs.tail, ys, disabled, depth); }
  }

  lemma {:induction false} FlattenReduced(ns: Nodes, disabled: set<Prim>, depth: nat)
    requires AllReduced(ns, disabled, depth)
    ensures AllReduced(Flatten(ns), disabled, depth) && NoSeqs(Flatten(ns))
  {
    if ns.Cons? {
      FlattenReduced(ns.tail, disabled, depth);
      if ns.head.kind.Seq? { AppendReduced(ns.head.kind.items, Flatten(ns.tail), disabled, depth); }
    }
  }

  lemma PrimReduced(n: Node, args: Nodes, disabled: set<Prim>, depth: nat)
    requires n.kind.PrimCall? && AllReduced(args, disabled, depth)
    ensures Reduced(OptimizePrim(n, args, disabled, depth), disabled, depth)
  {
    if KnownArgs(args).Some? { FoldsIff(n.kind.prim, KnownArgs(args).value); }
  }

  /** The calls of not, still enabled, at the head of a test. */
  function Nots(n: Node, disabled: set<Prim>, depth: nat): nat {
    if n.kind.PrimCall? && n.kind.prim == Not && Enabled(Not, disabled, depth) && n.kind.args.Cons? && n.kind.args.tail.Nil?
    then 1 + Nots(n.kind.args.head, disabled, depth)
    else 0
  }

  /** Of a test that stays, one not is taken away if there is one. */
  lemma NotIsTaken(n: Node, disabled: set<Prim>, depth: nat)
    requires n.kind.If?
    ensures var t := Optimize(n.kind.test, disabled, depth);
            t.known.None? ==>
              && Optimize(n, disabled, depth).kind.If?
              && Nots(Optimize(n, disabled, depth).kind.test, disabled, depth)
                 == if Nots(t, disabled, depth) > 0 then Nots(t, disabled, depth) - 1 else 0
  {
    OptimizeReduces(n.kind.test, disabled, depth);
    var If(t, c, a) := n.kind;
    var m := n.(kind := If(Optimize(t, disabled, depth), Optimize(c, disabled, depth),
                           if a.Some? then Some(Optimize(a.value, disabled, depth)) else None));
    if m.kind.test.known.None? { SwapTakesNot(m, disabled, depth); }
    assert Optimize(n, disabled, depth) == TakeKnown(SwapNot(m, disabled, depth));
  }

  lemma SwapTakesNot(m: Node, disabled: set<Prim>, depth: nat)
    requires m.kind.If? && m.kind.test.known.None? && Reduced(m.kind.test, disabled, depth)
    ensures var r := TakeKnown(SwapNot(m, disabled, depth));
            r.kind.If? && Nots(r.kind.test, disabled, depth)
                          == if Nots(m.kind.test, disabled, depth) > 0 then Nots(m.kind.test, disabled, depth) - 1 else 0
  {
    var t := m.kind.test;
    if Nots(t, disabled, depth) > 0 { KnownOperandFolds(t.kind.args); }
  }

  lemma KnownOperandFolds(args: Nodes)
    requires args.Cons? && args.tail.Nil?
    ensures args.head.known.Some? ==> Foldable(Not, args)
  {
    if args.head.known.Some? { assert KnownArgs(args) == Some([args.head.known.value] + []); }
  }
}
