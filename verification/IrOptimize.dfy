/** The optimizer: constant folding, identities, branches that are known, and
    sequences inside sequences. */
module IrOptimize {
  import opened IrSpec
  import opened IrAnalyze

  const FIXNUM_MIN := -0x8000_0000_0000
  const FIXNUM_MAX := 0x7fff_ffff_ffff
  const INT64_MIN := -0x8000_0000_0000_0000
  const INT64_MAX := 0x7fff_ffff_ffff_ffff
  const MAX_FOLD := 16

  predicate IsFixnum(v: Value) {
    v.Int? && FIXNUM_MIN <= v.n <= FIXNUM_MAX
  }

  predicate InInt64(x: int) {
    INT64_MIN <= x <= INT64_MAX
  }

  predicate AllFixnums(vs: seq<Value>) {
    forall i :: 0 <= i < |vs| ==> IsFixnum(vs[i])
  }

  /** The primitive an arithmetic name stands for. */
  function PrimOf(x: Name): Option<Prim> {
    match x.base
    case 0 => Some(Add)
    case 1 => Some(Sub)
    case 2 => Some(Mul)
    case 3 => Some(Lt)
    case 4 => Some(Gt)
    case 5 => Some(NumEq)
    case 6 => Some(Le)
    case 7 => Some(Ge)
    case 8 => Some(Not)
    case _ => None
  }

  // ---- folding --------------------------------------------------------------

  /** Partial sums and products stay within 64 bits, or folding gives up. */
  function FoldSum(start: int, vs: seq<Value>): Option<int>
    requires AllFixnums(vs)
  {
    if vs == [] then Some(start) else
      match FoldSum(start, vs[..|vs| - 1])
      case None => None
      case Some(s) => var r := s + vs[|vs| - 1].n; if InInt64(r) then Some(r) else None
  }

  function FoldDifference(start: int, vs: seq<Value>): Option<int>
    requires AllFixnums(vs)
  {
    if vs == [] then Some(start) else
      match FoldDifference(start, vs[..|vs| - 1])
      case None => None
      case Some(s) => var r := s - vs[|vs| - 1].n; if InInt64(r) then Some(r) else None
  }

  function FoldProduct(vs: seq<Value>): Option<int>
    requires AllFixnums(vs)
  {
    if vs == [] then Some(1) else
      match FoldProduct(vs[..|vs| - 1])
      case None => None
      case Some(s) => var r := s * vs[|vs| - 1].n; if InInt64(r) then Some(r) else None
  }

  function AsFixnum(r: Option<int>): Option<Value> {
    match r case None => None case Some(n) => if IsFixnum(Int(n)) then Some(Int(n)) else None
  }

  /** Each number is compared with the one before it. */
  function FoldOrder(p: Prim, vs: seq<Value>): Option<Value> {
    if |vs| <= 1 then Some(True)
    else if !IsFixnum(vs[0]) || !IsFixnum(vs[1]) then None
    else if !Related(p, vs[0].n, vs[1].n) then Some(False)
    else FoldOrder(p, vs[1..])
  }

  function FoldPrim(p: Prim, vs: seq<Value>): Option<Value> {
    if |vs| > MAX_FOLD then None else
    match p
    case Add => if AllFixnums(vs) then AsFixnum(FoldSum(0, vs)) else None
    case Sub =>
      if vs == [] || !AllFixnums(vs) then None
      else if |vs| == 1 then AsFixnum(Some(-vs[0].n))
      else AsFixnum(FoldDifference(vs[0].n, vs[1..]))
    case Mul => if AllFixnums(vs) then AsFixnum(FoldProduct(vs)) else None
    case Not => if |vs| == 1 then Some(Bool(vs[0] == False)) else None
    case _ => FoldOrder(p, vs)
  }

  function KnownArgs(ns: Nodes): Option<seq<Value>> {
    if ns.Nil? then Some([])
    else if ns.head.known.None? then None
    else
      match KnownArgs(ns.tail)
      case None => None
      case Some(vs) => Some([ns.head.known.value] + vs)
  }

  function LiteralNode(v: Value): Node {
    Node(Some(v), if v == Void then VoidNode else Literal(v))
  }

  predicate KnownFixnum(n: Node, k: int) {
    n.known == Some(Int(k))
  }

  predicate KnownInteger(n: Node) {
    n.known.Some? && n.known.value.Int?
  }

  /** x + 0, x - 0, x * 1 of known integers. */
  function SimplifyIdentity(n: Node): Node
    requires n.kind.PrimCall?
  {
    var args := n.kind.args;
    if args.Nil? || args.tail.Nil? || args.tail.tail.Cons? then n else
      var a, b := args.head, args.tail.head;
      match n.kind.prim
      case Add =>
        if KnownFixnum(a, 0) && KnownInteger(b) then b else if KnownFixnum(b, 0) && KnownInteger(a) then a else n
      case Sub => if KnownFixnum(b, 0) && KnownInteger(a) then a else n
      case Mul =>
        if KnownFixnum(a, 1) && KnownInteger(b) then b else if KnownFixnum(b, 1) && KnownInteger(a) then a else n
      case _ => n
  }

  // ---- names that are assigned ----------------------------------------------

  function Disables(x: Name): set<Prim> {
    match PrimOf(x) case None => {} case Some(p) => {p}
  }

  /** The primitives whose names the tree defines or assigns outside lambdas. */
  function Redefined(n: Node, I: Interp, depth: nat): set<Prim>
    decreases n, 0
  {
    match n.kind
    case If(t, c, a) =>
      Redefined(t, I, depth) + Redefined(c, I, depth) + (if a.Some? then Redefined(a.value, I, depth) else {})
    case Lambda(_, body) => RedefinedAll(body, I, depth + 1)
    case Seq(items) => RedefinedAll(items, I, depth)
    case Call(f, args) => Redefined(f, I, depth) + RedefinedAll(args, I, depth)
    case Set(x, v) => (if depth == 0 then Disables(x) else {}) + Redefined(v, I, depth)
    case Define(x, v) => (if depth == 0 then Disables(x) else {}) + Redefined(v, I, depth)
    case And(items) => RedefinedAll(items, I, depth)
    case Or(items) => RedefinedAll(items, I, depth)
    case PrimCall(_, _, args) => RedefinedAll(args, I, depth)
    case Raw(form) =>
      if depth == 0 && I.rawTarget(form).Some? then Disables(Name(I.rawTarget(form).value, 0)) else {}
    case _ => {}
  }

  function RedefinedAll(ns: Nodes, I: Interp, depth: nat): set<Prim>
    decreases ns, 0
  {
    if ns.Nil? then {} else Redefined(ns.head, I, depth) + RedefinedAll(ns.tail, I, depth)
  }

  // ---- the transformation ---------------------------------------------------

  function Append(a: Nodes, b: Nodes): Nodes {
    if a.Nil? then b else Cons(a.head, Append(a.tail, b))
  }

  /** Sequences directly inside are spliced. */
  function Flatten(ns: Nodes): Nodes {
    if ns.Nil? then Nil
    else if ns.head.kind.Seq? then Append(ns.head.kind.items, Flatten(ns.tail))
    else Cons(ns.head, Flatten(ns.tail))
  }

  predicate Enabled(p: Prim, disabled: set<Prim>, depth: nat) {
    depth == 0 && p !in disabled
  }

  /** (if (not x) a b) is (if x b a). */
  function SwapNot(n: Node, disabled: set<Prim>, depth: nat): Node
    requires n.kind.If?
  {
    var If(t, c, a) := n.kind;
    if t.kind.PrimCall? && t.kind.prim == Not && Enabled(Not, disabled, depth) && t.kind.args.Cons? && t.kind.args.tail.Nil? then
      n.(kind := if a.Some? then If(t.kind.args.head, a.value, Some(c))
                 else If(t.kind.args.head, LiteralNode(False), Some(c)))
    else n
  }

  /** A known test leaves the branch it takes. */
  function TakeKnown(n: Node): Node
    requires n.kind.If?
  {
    var If(t, c, a) := n.kind;
    if t.known.None? then n
    else if Truthy(t.known.value) then c
    else if a.Some? then a.value
    else LiteralNode(False)
  }

  function OptimizeSeq(n: Node, items: Nodes): Node {
    var flat := Flatten(items);
    if flat.Nil? then LiteralNode(Void) else if flat.tail.Nil? then flat.head else n.(kind := Seq(flat))
  }

  function OptimizePrim(n: Node, args: Nodes, disabled: set<Prim>, depth: nat): Node
    requires n.kind.PrimCall?
  {
    var m := n.(kind := PrimCall(n.kind.prim, n.kind.symbol, args));
    if !Enabled(n.kind.prim, disabled, depth) then m else
      match KnownArgs(args)
      case None => SimplifyIdentity(m)
      case Some(vs) =>
        match FoldPrim(n.kind.prim, vs)
        case Some(v) => LiteralNode(v)
        case None => SimplifyIdentity(m)
  }

  function Optimize(n: Node, disabled: set<Prim>, depth: nat): Node
    decreases n, 0
  {
    match n.kind
    case If(t, c, a) =>
      var m := n.(kind := If(Optimize(t, disabled, depth), Optimize(c, disabled, depth),
                             if a.Some? then Some(Optimize(a.value, disabled, depth)) else None));
      TakeKnown(SwapNot(m, disabled, depth))
    case Lambda(p, body) => n.(kind := Lambda(p, OptimizeAll(body, disabled, depth + 1)))
    case Seq(items) => OptimizeSeq(n, OptimizeAll(items, disabled, depth))
    case Call(f, args) => n.(kind := Call(Optimize(f, disabled, depth), OptimizeAll(args, disabled, depth)))
    case Set(x, v) => n.(kind := Set(x, Optimize(v, disabled, depth)))
    case Define(x, v) => n.(kind := Define(x, Optimize(v, disabled, depth)))
    case And(items) => n.(kind := And(OptimizeAll(items, disabled, depth)))
    case Or(items) => n.(kind := Or(OptimizeAll(items, disabled, depth)))
    case PrimCall(_, _, args) => OptimizePrim(n, OptimizeAll(args, disabled, depth), disabled, depth)
    case _ => n
  }

  function OptimizeAll(ns: Nodes, disabled: set<Prim>, depth: nat): Nodes
    decreases ns, 0
  {
    if ns.Nil? then Nil else Cons(Optimize(ns.head, disabled, depth), OptimizeAll(ns.tail, disabled, depth))
  }

  /** The whole pass: what the ambient bindings and the tree itself disable, the
      rewriting, and the analysis again. */
  function OptimizeTree(root: Node, I: Interp, ambient: set<Prim>): Node {
    Analyze(Optimize(root, ambient + Redefined(root, I, 0), 0))
  }

  // ---- folding is what the primitive computes -------------------------------

  lemma {:induction false} FoldSumIs(start: int, vs: seq<Value>)
    requires AllFixnums(vs) && FoldSum(start, vs).Some?
    ensures AllInts(vs) && FoldSum(start, vs).value == start + Sum(vs)
  {
    if vs != [] {
      FoldSumIs(start, vs[..|vs| - 1]);
    }
  }

  lemma {:induction false} FoldDifferenceIs(start: int, vs: seq<Value>)
    requires AllFixnums(vs) && FoldDifference(start, vs).Some?
    ensures AllInts(vs) && FoldDifference(start, vs).value == start - Sum(vs)
  {
    if vs != [] {
      FoldDifferenceIs(start, vs[..|vs| - 1]);
    }
  }

  lemma {:induction false} FoldProductIs(vs: seq<Value>)
    requires AllFixnums(vs) && FoldProduct(vs).Some?
    ensures AllInts(vs) && FoldProduct(vs).value == Product(vs)
  {
    if vs != [] {
      FoldProductIs(vs[..|vs| - 1]);
    }
  }

  lemma {:induction false} FoldOrderIs(p: Prim, vs: seq<Value>)
    requires FoldOrder(p, vs).Some?
    ensures Ordered(p, vs) == Ok(FoldOrder(p, vs).value)
  {
    if |vs| > 1 && IsFixnum(vs[0]) && IsFixnum(vs[1]) && Related(p, vs[0].n, vs[1].n) {
      FoldOrderIs(p, vs[1..]);
    }
  }

  /** Comparing neighbours and comparing with the first agree on equality. */
  lemma {:induction false} NeighboursEqual(vs: seq<Value>, first: Value)
    requires vs != [] && FoldOrder(NumEq, vs).Some? && (|vs| > 1 ==> first == vs[0])
    ensures AllEqual(first, vs[1..]) == Ok(FoldOrder(NumEq, vs).value)
  {
    if |vs| > 1 && vs[0].n == vs[1].n {
      assert vs[1..][1..] == vs[2..];
      NeighboursEqual(vs[1..], first);
    }
  }

  /** A folded call is what the primitive returns. */
  lemma FoldIsBuiltin(p: Prim, vs: seq<Value>)
    requires FoldPrim(p, vs).Some?
    ensures BuiltinResult(p, vs) == Ok(FoldPrim(p, vs).value)
  {
    match p
    case Add => FoldSumIs(0, vs);
    case Sub => if |vs| > 1 { FoldDifferenceIs(vs[0].n, vs[1..]); }
    case Mul => FoldProductIs(vs);
    case NumEq => if vs != [] { NeighboursEqual(vs, vs[0]); }
    case Not =>
    case _ => FoldOrderIs(p, vs);
  }
}
