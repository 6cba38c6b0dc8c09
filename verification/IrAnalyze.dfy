/** The constant analysis, and that it never claims a constant that is none. */
module IrAnalyze {
  import opened IrSpec

  predicate Truthy(v: Value) {
    v != False
  }

  /** The tree with every node marked with the constant it evaluates to, as far
      as the analysis can tell. */
  function Analyze(n: Node): Node
    decreases n, 0
  {
    match n.kind
    case VoidNode => n.(known := Some(Void))
    case Literal(v) => n.(known := Some(v))
    case Quote(v) => n.(known := Some(v))
    case Var(_) => n.(known := None)
    case If(test, consequent, alternate) =>
      var t, c := Analyze(test), Analyze(consequent);
      var a := if alternate.Some? then Some(Analyze(alternate.value)) else None;
      Node(KnownIf(t, c, a), If(t, c, a))
    case Lambda(params, body) => Node(None, Lambda(params, AnalyzeAll(body)))
    case Seq(items) => var all := AnalyzeAll(items); Node(KnownSeq(all, Void), Seq(all))
    case Call(callee, args) => Node(None, Call(Analyze(callee), AnalyzeAll(args)))
    case Set(x, value) => Node(None, Set(x, Analyze(value)))
    case Define(x, value) => Node(None, Define(x, Analyze(value)))
    case DefineSyntax => n.(known := Some(Void))
    case And(items) => var (all, v) := AnalyzeUntil(items, false); Node(v, And(all))
    case Or(items) => var (all, v) := AnalyzeUntil(items, true); Node(v, Or(all))
    case PrimCall(p, x, args) => Node(None, PrimCall(p, x, AnalyzeAll(args)))
    case Raw(_) => n.(known := None)
  }

  function KnownIf(t: Node, c: Node, a: Option<Node>): Option<Value> {
    if t.known.None? then None
    else if Truthy(t.known.value) then c.known
    else if a.Some? then a.value.known
    else Some(False)
  }

  function AnalyzeAll(ns: Nodes): Nodes
    decreases ns, 0
  {
    if ns.Nil? then Nil else Cons(Analyze(ns.head), AnalyzeAll(ns.tail))
  }

  /** All constant: the last one's value. */
  function KnownSeq(ns: Nodes, last: Value): Option<Value> {
    if ns.Nil? then Some(last) else if ns.head.known.None? then None else KnownSeq(ns.tail, ns.head.known.value)
  }

  /** Operands are analyzed up to the first that is not constant or decides the
      form; the rest are left as they were. */
  function AnalyzeUntil(ns: Nodes, stop: bool): (Nodes, Option<Value>)
    decreases ns, 0
  {
    if ns.Nil? then (Nil, Some(Bool(!stop))) else
      var h := Analyze(ns.head);
      if h.known.None? then (Cons(h, ns.tail), None)
      else if Truthy(h.known.value) == stop || ns.tail.Nil? then (Cons(h, ns.tail), h.known)
      else var (t, v) := AnalyzeUntil(ns.tail, stop); (Cons(h, t), v)
  }

  // ---- replacing parts ------------------------------------------------------

  lemma {:induction false} SameSeq(ms: Nodes, ns: Nodes, I: Interp, w: World, last: Value)
    requires SameAll(ms, ns, I)
    ensures EvalSeq(ms, I, w, last) == EvalSeq(ns, I, w, last)
    decreases ms
  {
    if ms.Cons? {
      var (v, u) := Eval(ms.head, I, w);
      assert Eval(ns.head, I, w) == (v, u);
      if v.Ok? {
        SameSeq(ms.tail, ns.tail, I, u, v.v);
      }
    }
  }

  lemma {:induction false} SameUntil(ms: Nodes, ns: Nodes, stop: bool, I: Interp, w: World)
    requires SameAll(ms, ns, I)
    ensures EvalUntil(ms, stop, I, w) == EvalUntil(ns, stop, I, w)
    decreases ms
  {
    if ms.Cons? {
      var (v, u) := Eval(ms.head, I, w);
      assert Eval(ns.head, I, w) == (v, u);
      SameUntil(ms.tail, ns.tail, stop, I, u);
    }
  }

  lemma {:induction false} SameArgs(ms: Nodes, ns: Nodes, I: Interp, w: World)
    requires SameAll(ms, ns, I)
    ensures EvalArgs(ms, I, w) == EvalArgs(ns, I, w)
    decreases ms
  {
    if ms.Cons? {
      var (v, u) := Eval(ms.head, I, w);
      assert Eval(ns.head, I, w) == (v, u);
      SameArgs(ms.tail, ns.tail, I, u);
    }
  }

  lemma SameClosure(params: nat, b: Nodes, c: Nodes, I: Interp)
    requires Extensional(I) && SameAll(b, c, I)
    ensures I.closure(params, b) == I.closure(params, c)
  {
    forall w: World, last ensures EvalSeq(b, I, w, last) == EvalSeq(c, I, w, last) {
      SameSeq(b, c, I, w, last);
    }
  }

  lemma {:induction false} SameSelf(ns: Nodes, I: Interp)
    ensures SameAll(ns, ns, I)
  {
    if ns.Cons? {
      SameSelf(ns.tail, I);
    }
  }

  /** The parts of one node mean what the parts of the other do. */
  ghost predicate SameParts(m: Node, n: Node, I: Interp) {
    match m.kind
    case If(t, c, a) =>
      n.kind.If? && Same(t, n.kind.test, I) && Same(c, n.kind.consequent, I)
      && a.Some? == n.kind.alternate.Some? && (a.Some? ==> Same(a.value, n.kind.alternate.value, I))
    case Lambda(p, body) => n.kind.Lambda? && n.kind.params == p && SameAll(body, n.kind.body, I)
    case Seq(items) => n.kind.Seq? && SameAll(items, n.kind.items, I)
    case Call(f, args) => n.kind.Call? && Same(f, n.kind.callee, I) && SameAll(args, n.kind.args, I)
    case Set(x, v) => n.kind.Set? && n.kind.x == x && Same(v, n.kind.value, I)
    case Define(x, v) => n.kind.Define? && n.kind.x == x && Same(v, n.kind.value, I)
    case And(items) => n.kind.And? && SameAll(items, n.kind.items, I)
    case Or(items) => n.kind.Or? && SameAll(items, n.kind.items, I)
    case PrimCall(p, x, args) => n.kind.PrimCall? && n.kind.prim == p && n.kind.symbol == x && SameAll(args, n.kind.args, I)
    case _ => n.kind == m.kind
  }

  lemma SamePartsSameWhole(m: Node, n: Node, I: Interp)
    requires SameParts(m, n, I) && Extensional(I)
    ensures Same(m, n, I)
  {
    forall w: World ensures Eval(m, I, w) == Eval(n, I, w) {
      match m.kind
      case Lambda(p, body) => SameClosure(p, body, n.kind.body, I);
      case Seq(items) => SameSeq(items, n.kind.items, I, w, Void);
      case And(items) => SameUntil(items, n.kind.items, false, I, w);
      case Or(items) => SameUntil(items, n.kind.items, true, I, w);
      case Call(f, args) => SameArgs(args, n.kind.args, I, Eval(f, I, w).1);
      case PrimCall(_, _, args) => SameArgs(args, n.kind.args, I, w);
      case _ =>
    }
  }

  // ---- the analysis is right ------------------------------------------------

  ghost predicate Kept(n: Node, m: Node, I: Interp) {
    Same(n, m, I) && Sound(m, I)
  }

  lemma KnownIfIsConstant(n: Node, I: Interp)
    requires n.kind.If? && Sound(n.kind.test, I) && Sound(n.kind.consequent, I)
    requires n.kind.alternate.Some? ==> Sound(n.kind.alternate.value, I)
    requires KnownIf(n.kind.test, n.kind.consequent, n.kind.alternate).Some?
    ensures IsConstant(n, KnownIf(n.kind.test, n.kind.consequent, n.kind.alternate).value, I)
  {
  }

  lemma {:induction false} KnownSeqIsConstant(ns: Nodes, I: Interp, w: World, last: Value)
    requires AllSound(ns, I) && KnownSeq(ns, last).Some?
    ensures EvalSeq(ns, I, w, last) == (Ok(KnownSeq(ns, last).value), w)
  {
    if ns.Cons? {
      assert IsConstant(ns.head, ns.head.known.value, I);
      assert Eval(ns.head, I, w) == (Ok(ns.head.known.value), w);
      KnownSeqIsConstant(ns.tail, I, w, ns.head.known.value);
    }
  }

  lemma {:induction false} AnalyzeIsSound(n: Node, I: Interp)
    requires Sound(n, I) && Extensional(I)
    ensures Kept(n, Analyze(n), I)
    decreases n, 0
  {
    hide Extensional, Same;
    var m := Analyze(n);
    match n.kind
    case If(t, c, a) =>
      AnalyzeIsSound(t, I);
      AnalyzeIsSound(c, I);
      if a.Some? { AnalyzeIsSound(a.value, I); }
      if m.known.Some? { KnownIfIsConstant(m, I); }
      SamePartsSameWhole(n, m, I);
    case Lambda(_, body) => AnalyzeAllIsSound(body, I); SamePartsSameWhole(n, m, I);
    case Seq(items) =>
      AnalyzeAllIsSound(items, I);
      if m.known.Some? {
        forall w: World ensures Eval(m, I, w) == (Ok(m.known.value), w) {
          KnownSeqIsConstant(m.kind.items, I, w, Void);
        }
      }
      SamePartsSameWhole(n, m, I);
    case Call(f, args) => AnalyzeIsSound(f, I); AnalyzeAllIsSound(args, I); SamePartsSameWhole(n, m, I);
    case Set(_, v) => AnalyzeIsSound(v, I); SamePartsSameWhole(n, m, I);
    case Define(_, v) => AnalyzeIsSound(v, I); SamePartsSameWhole(n, m, I);
    case And(items) => AnalyzeFormIsSound(n, I);
    case Or(items) => AnalyzeFormIsSound(n, I);
    case PrimCall(_, _, args) => AnalyzeAllIsSound(args, I); SamePartsSameWhole(n, m, I);
    case _ => SamePartsSameWhole(n, m, I);
  }

  lemma {:induction false} AnalyzeFormIsSound(n: Node, I: Interp)
    requires (n.kind.And? || n.kind.Or?) && Sound(n, I) && Extensional(I)
    ensures Kept(n, Analyze(n), I)
    decreases n.kind, 0
  {
    var m := Analyze(n);
    AnalyzeUntilIsSound(n.kind.items, n.kind.Or?, I);
    if m.known.Some? {
      forall w: World ensures Eval(m, I, w) == (Ok(m.known.value), w) {
        KnownUntil(n.kind.items, n.kind.Or?, I, w);
      }
    }
    SamePartsSameWhole(n, m, I);
  }

  lemma {:induction false} AnalyzeAllIsSound(ns: Nodes, I: Interp)
    requires AllSound(ns, I) && Extensional(I)
    ensures SameAll(ns, AnalyzeAll(ns), I) && AllSound(AnalyzeAll(ns), I)
    decreases ns, 0
  {
    if ns.Cons? {
      AnalyzeIsSound(ns.head, I);
      AnalyzeAllIsSound(ns.tail, I);
    }
  }

  lemma {:induction false} AnalyzeUntilIsSound(ns: Nodes, stop: bool, I: Interp)
    requires AllSound(ns, I) && Extensional(I)
    ensures SameAll(ns, AnalyzeUntil(ns, stop).0, I) && AllSound(AnalyzeUntil(ns, stop).0, I)
    decreases ns, 0
  {
    if ns.Cons? {
      AnalyzeIsSound(ns.head, I);
      SameSelf(ns.tail, I);
      AnalyzeUntilIsSound(ns.tail, stop, I);
    }
  }

  lemma {:induction false} KnownUntil(ns: Nodes, stop: bool, I: Interp, w: World)
    requires AllSound(ns, I) && Extensional(I) && AnalyzeUntil(ns, stop).1.Some?
    ensures EvalUntil(AnalyzeUntil(ns, stop).0, stop, I, w) == (Ok(AnalyzeUntil(ns, stop).1.value), w)
    decreases ns, 0
  {
    if ns.Cons? {
      AnalyzeIsSound(ns.head, I);
      var h := Analyze(ns.head);
      assert IsConstant(h, h.known.value, I);
      assert Eval(h, I, w) == (Ok(h.known.value), w);
      if ns.tail.Cons? && Truthy(h.known.value) != stop {
        KnownUntil(ns.tail, stop, I, w);
      }
    }
  }
}
