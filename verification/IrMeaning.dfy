/** The optimizer keeps the value, the errors and the order of effects. */
module IrMeaning {
  import opened IrSpec
  import opened IrAnalyze
  import opened IrOptimize

  // ---- what the optimizer relies on -----------------------------------------

  /** In this world every name of a primitive that is not disabled is bound to
      the primitive. */
  ghost predicate Holds(I: Interp, disabled: set<Prim>, w: World) {
    forall x: Name | PrimOf(x).Some? && PrimOf(x).value !in disabled :: I.lookup(x, w) == Ok(Builtin(PrimOf(x).value))
  }

  /** Calling a primitive computes its result and changes nothing. */
  ghost predicate BuiltinsAct(I: Interp) {
    forall p: Prim, vs: seq<Value>, w: World :: I.call(Builtin(p), vs, w) == (BuiltinResult(p, vs), w)
  }

  /** Arithmetic names change only where they are assigned in the open: not in
      calls, and elsewhere only under their own base name. */
  ghost predicate Tame(I: Interp) {
    && (forall x: Name, v: Value, y: Name, w: World | PrimOf(y).Some? && y.base != x.base ::
          I.lookup(y, I.assign(x, v, w).1) == I.lookup(y, w) && I.lookup(y, I.define(x, v, w).1) == I.lookup(y, w))
    && (forall f: Value, vs: seq<Value>, y: Name, w: World | PrimOf(y).Some? :: I.lookup(y, I.call(f, vs, w).1) == I.lookup(y, w))
    && (forall form: nat, y: Name, w: World | PrimOf(y).Some? && I.rawTarget(form) != Some(y.base) ::
          I.lookup(y, I.raw(form, w).1) == I.lookup(y, w))
  }

  /** Primitive calls carry the primitive of their name. */
  predicate WellFormed(n: Node)
    decreases n
  {
    match n.kind
    case If(t, c, a) => WellFormed(t) && WellFormed(c) && (a.Some? ==> WellFormed(a.value))
    case Lambda(_, body) => AllWellFormed(body)
    case Seq(items) => AllWellFormed(items)
    case Call(f, args) => WellFormed(f) && AllWellFormed(args)
    case Set(_, v) => WellFormed(v)
    case Define(_, v) => WellFormed(v)
    case And(items) => AllWellFormed(items)
    case Or(items) => AllWellFormed(items)
    case PrimCall(p, x, args) => PrimOf(x) == Some(p) && AllWellFormed(args)
    case _ => true
  }

  predicate AllWellFormed(ns: Nodes)
    decreases ns
  {
    ns.Cons? ==> WellFormed(ns.head) && AllWellFormed(ns.tail)
  }

  /** Inside a lambda nothing is assumed of the world. */
  ghost predicate Assumed(I: Interp, disabled: set<Prim>, depth: nat, w: World) {
    depth == 0 ==> Holds(I, disabled, w)
  }

  ghost predicate Laws(I: Interp) {
    Extensional(I) && BuiltinsAct(I) && Tame(I)
  }

  // ---- names stay bound -----------------------------------------------------

  /** A name that stays enabled is not one the assignment disables. */
  lemma OtherName(x: Name, y: Name, disabled: set<Prim>)
    requires Disables(x) <= disabled && PrimOf(y).Some? && PrimOf(y).value !in disabled
    ensures y.base != x.base
  {
    assert y.base == x.base ==> PrimOf(x) == PrimOf(y);
  }

  lemma AssignKeepsHolds(I: Interp, disabled: set<Prim>, x: Name, v: Value, w: World)
    requires Tame(I) && Holds(I, disabled, w) && Disables(x) <= disabled
    ensures Holds(I, disabled, I.assign(x, v, w).1) && Holds(I, disabled, I.define(x, v, w).1)
  {
    forall y: Name | PrimOf(y).Some? && PrimOf(y).value !in disabled
      ensures I.lookup(y, I.assign(x, v, w).1) == Ok(Builtin(PrimOf(y).value))
      ensures I.lookup(y, I.define(x, v, w).1) == Ok(Builtin(PrimOf(y).value))
    {
      OtherName(x, y, disabled);
      assert I.lookup(y, w) == Ok(Builtin(PrimOf(y).value));
    }
  }

  lemma CallKeepsHolds(I: Interp, disabled: set<Prim>, f: Value, vs: seq<Value>, w: World)
    requires Tame(I) && Holds(I, disabled, w)
    ensures Holds(I, disabled, I.call(f, vs, w).1)
  {
  }

  lemma RawKeepsHolds(I: Interp, disabled: set<Prim>, form: nat, w: World)
    requires Tame(I) && Holds(I, disabled, w)
    requires I.rawTarget(form).Some? ==> Disables(Name(I.rawTarget(form).value, 0)) <= disabled
    ensures Holds(I, disabled, I.raw(form, w).1)
  {
    forall y: Name | PrimOf(y).Some? && PrimOf(y).value !in disabled
      ensures I.lookup(y, I.raw(form, w).1) == Ok(Builtin(PrimOf(y).value))
    {
      if I.rawTarget(form).Some? {
        OtherName(Name(I.rawTarget(form).value, 0), y, disabled);
      }
      assert I.lookup(y, w) == Ok(Builtin(PrimOf(y).value));
    }
  }

  /** Evaluating a tree keeps the names bound that it does not redefine. */
  lemma {:induction false} EvalKeepsHolds(n: Node, I: Interp, disabled: set<Prim>, w: World)
    requires Tame(I) && Holds(I, disabled, w) && Redefined(n, I, 0) <= disabled
    ensures Holds(I, disabled, Eval(n, I, w).1)
    decreases n, 0
  {
    hide Holds, Tame, Disables;
    match n.kind
    case If(t, c, a) =>
      EvalKeepsHolds(t, I, disabled, w);
      var u := Eval(t, I, w).1;
      EvalKeepsHolds(c, I, disabled, u);
      if a.Some? { EvalKeepsHolds(a.value, I, disabled, u); }
    case Seq(items) => SeqKeepsHolds(items, I, disabled, w, Void);
    case Call(f, args) =>
      EvalKeepsHolds(f, I, disabled, w);
      var (g, u) := Eval(f, I, w);
      if g.Ok? { ApplyKeepsHolds(g.v, args, I, disabled, u); }
    case Set(x, v) =>
      EvalKeepsHolds(v, I, disabled, w);
      var (r, u) := Eval(v, I, w);
      if r.Ok? { AssignKeepsHolds(I, disabled, x, r.v, u); }
    case Define(x, v) =>
      EvalKeepsHolds(v, I, disabled, w);
      var (r, u) := Eval(v, I, w);
      if r.Ok? { AssignKeepsHolds(I, disabled, x, r.v, u); }
    case And(items) => UntilKeepsHolds(items, false, I, disabled, w);
    case Or(items) => UntilKeepsHolds(items, true, I, disabled, w);
    case PrimCall(_, x, args) =>
      var f := I.lookup(x, w);
      if f.Ok? { ApplyKeepsHolds(f.v, args, I, disabled, w); }
    case Raw(form) => RawKeepsHolds(I, disabled, form, w);
    case _ =>
  }

  lemma {:induction false} SeqKeepsHolds(ns: Nodes, I: Interp, disabled: set<Prim>, w: World, last: Value)
    requires Tame(I) && Holds(I, disabled, w) && RedefinedAll(ns, I, 0) <= disabled
    ensures Holds(I, disabled, EvalSeq(ns, I, w, last).1)
    decreases ns, 0
  {
    hide Holds, Tame;
    if ns.Cons? {
      EvalKeepsHolds(ns.head, I, disabled, w);
      var (v, u) := Eval(ns.head, I, w);
      if v.Ok? { SeqKeepsHolds(ns.tail, I, disabled, u, v.v); }
    }
  }

  lemma {:induction false} UntilKeepsHolds(ns: Nodes, stop: bool, I: Interp, disabled: set<Prim>, w: World)
    requires Tame(I) && Holds(I, disabled, w) && RedefinedAll(ns, I, 0) <= disabled
    ensures Holds(I, disabled, EvalUntil(ns, stop, I, w).1)
    decreases ns, 0
  {
    hide Holds, Tame;
    if ns.Cons? {
      EvalKeepsHolds(ns.head, I, disabled, w);
      UntilKeepsHolds(ns.tail, stop, I, disabled, Eval(ns.head, I, w).1);
    }
  }

  lemma {:induction false} ArgsKeepHolds(ns: Nodes, I: Interp, disabled: set<Prim>, w: World)
    requires Tame(I) && Holds(I, disabled, w) && RedefinedAll(ns, I, 0) <= disabled
    ensures Holds(I, disabled, EvalArgs(ns, I, w).1)
    decreases ns, 0
  {
    hide Holds, Tame;
    if ns.Cons? {
      EvalKeepsHolds(ns.head, I, disabled, w);
      ArgsKeepHolds(ns.tail, I, disabled, Eval(ns.head, I, w).1);
    }
  }

  lemma {:induction false} ApplyKeepsHolds(f: Value, args: Nodes, I: Interp, disabled: set<Prim>, w: World)
    requires Tame(I) && Holds(I, disabled, w) && RedefinedAll(args, I, 0) <= disabled
    ensures Holds(I, disabled, EvalCall(f, args, I, w).1)
    decreases args, 1
  {
    hide Holds, Tame;
    ArgsKeepHolds(args, I, disabled, w);
    var (vs, u) := EvalArgs(args, I, w);
    if vs.Values? { CallKeepsHolds(I, disabled, f, vs.vs, u); }
  }

  // ---- the same, where the names hold ---------------------------------------

  ghost predicate SameHere(m: Node, n: Node, I: Interp, disabled: set<Prim>, depth: nat) {
    forall w: World | Assumed(I, disabled, depth, w) :: Eval(m, I, w) == Eval(n, I, w)
  }

  ghost predicate AllSameHere(ms: Nodes, ns: Nodes, I: Interp, disabled: set<Prim>, depth: nat) {
    if ms.Nil? || ns.Nil? then ms.Nil? && ns.Nil?
    else SameHere(ms.head, ns.head, I, disabled, depth) && AllSameHere(ms.tail, ns.tail, I, disabled, depth)
  }

  ghost predicate ConstantHere(n: Node, v: Value, I: Interp, disabled: set<Prim>, depth: nat) {
    forall w: World | Assumed(I, disabled, depth, w) :: Eval(n, I, w) == (Ok(v), w)
  }

  /** What the nodes are known to be, they are wherever the names hold. */
  ghost predicate SoundHere(n: Node, I: Interp, disabled: set<Prim>, depth: nat)
    decreases n
  {
    && (n.known.Some? ==> ConstantHere(n, n.known.value, I, disabled, depth))
    && match n.kind
       case If(t, c, a) =>
         && SoundHere(t, I, disabled, depth) && SoundHere(c, I, disabled, depth)
         && (a.Some? ==> SoundHere(a.value, I, disabled, depth))
       case Seq(items) => AllSoundHere(items, I, disabled, depth)
       case Call(f, args) => SoundHere(f, I, disabled, depth) && AllSoundHere(args, I, disabled, depth)
       case Set(_, v) => SoundHere(v, I, disabled, depth)
       case Define(_, v) => SoundHere(v, I, disabled, depth)
       case And(items) => AllSoundHere(items, I, disabled, depth)
       case Or(items) => AllSoundHere(items, I, disabled, depth)
       case PrimCall(_, _, args) => AllSoundHere(args, I, disabled, depth)
       case _ => true
  }

  ghost predicate AllSoundHere(ns: Nodes, I: Interp, disabled: set<Prim>, depth: nat)
    decreases ns
  {
    ns.Cons? ==> SoundHere(ns.head, I, disabled, depth) && AllSoundHere(ns.tail, I, disabled, depth)
  }

  /** The world after a part is again one the names hold in. */
  lemma AssumedAfter(n: Node, I: Interp, disabled: set<Prim>, depth: nat, w: World)
    requires Tame(I) && Assumed(I, disabled, depth, w) && (depth == 0 ==> Redefined(n, I, 0) <= disabled)
    ensures Assumed(I, disabled, depth, Eval(n, I, w).1)
  {
    if depth == 0 {
      EvalKeepsHolds(n, I, disabled, w);
    }
  }

  ghost predicate Covers(n: Node, I: Interp, disabled: set<Prim>, depth: nat) {
    depth == 0 ==> Redefined(n, I, 0) <= disabled
  }

  ghost predicate CoversAll(ns: Nodes, I: Interp, disabled: set<Prim>, depth: nat) {
    depth == 0 ==> RedefinedAll(ns, I, 0) <= disabled
  }

  lemma {:induction false} SeqHere(ms: Nodes, ns: Nodes, I: Interp, disabled: set<Prim>, depth: nat, w: World, last: Value)
    requires Tame(I) && AllSameHere(ms, ns, I, disabled, depth) && CoversAll(ns, I, disabled, depth)
    requires Assumed(I, disabled, depth, w)
    ensures EvalSeq(ms, I, w, last) == EvalSeq(ns, I, w, last)
    decreases ms
  {
    hide Assumed, Tame;
    if ms.Cons? {
      var (v, u) := Eval(ns.head, I, w);
      assert Eval(ms.head, I, w) == (v, u);
      AssumedAfter(ns.head, I, disabled, depth, w);
      if v.Ok? { SeqHere(ms.tail, ns.tail, I, disabled, depth, u, v.v); }
    }
  }

  lemma {:induction false} UntilHere(ms: Nodes, ns: Nodes, stop: bool, I: Interp, disabled: set<Prim>, depth: nat, w: World)
    requires Tame(I) && AllSameHere(ms, ns, I, disabled, depth) && CoversAll(ns, I, disabled, depth)
    requires Assumed(I, disabled, depth, w)
    ensures EvalUntil(ms, stop, I, w) == EvalUntil(ns, stop, I, w)
    decreases ms
  {
    hide Assumed, Tame;
    if ms.Cons? {
      var (v, u) := Eval(ns.head, I, w);
      assert Eval(ms.head, I, w) == (v, u);
      AssumedAfter(ns.head, I, disabled, depth, w);
      UntilHere(ms.tail, ns.tail, stop, I, disabled, depth, u);
    }
  }

  lemma {:induction false} ArgsHere(ms: Nodes, ns: Nodes, I: Interp, disabled: set<Prim>, depth: nat, w: World)
    requires Tame(I) && AllSameHere(ms, ns, I, disabled, depth) && CoversAll(ns, I, disabled, depth)
    requires Assumed(I, disabled, depth, w)
    ensures EvalArgs(ms, I, w) == EvalArgs(ns, I, w)
    decreases ms
  {
    hide Assumed, Tame;
    if ms.Cons? {
      var (v, u) := Eval(ns.head, I, w);
      assert Eval(ms.head, I, w) == (v, u);
      AssumedAfter(ns.head, I, disabled, depth, w);
      ArgsHere(ms.tail, ns.tail, I, disabled, depth, u);
    }
  }

  /** Known operands evaluate to their values, without effects. */
  lemma {:induction false} KnownArgsAre(ns: Nodes, I: Interp, disabled: set<Prim>, depth: nat, w: World)
    requires AllSoundHere(ns, I, disabled, depth) && KnownArgs(ns).Some? && Assumed(I, disabled, depth, w)
    ensures EvalArgs(ns, I, w) == (Values(KnownArgs(ns).value), w)
    decreases ns
  {
    if ns.Cons? {
      assert ConstantHere(ns.head, ns.head.known.value, I, disabled, depth);
      KnownArgsAre(ns.tail, I, disabled, depth, w);
    }
  }

  // ---- sequences ------------------------------------------------------------

  predicate NoEmptySeq(ns: Nodes) {
    ns.Cons? ==> (ns.head.kind.Seq? ==> ns.head.kind.items.Cons?) && NoEmptySeq(ns.tail)
  }

  lemma {:induction false} AppendSeq(a: Nodes, b: Nodes, I: Interp, w: World, last: Value)
    ensures EvalSeq(Append(a, b), I, w, last)
         == (var (v, u) := EvalSeq(a, I, w, last); if v.Raise? then (v, u) else EvalSeq(b, I, u, v.v))
    decreases a
  {
    if a.Cons? {
      var (v, u) := Eval(a.head, I, w);
      if v.Ok? { AppendSeq(a.tail, b, I, u, v.v); }
    }
  }

  lemma {:induction false} FlattenSame(ns: Nodes, I: Interp, w: World, last: Value)
    requires NoEmptySeq(ns)
    ensures EvalSeq(Flatten(ns), I, w, last) == EvalSeq(ns, I, w, last)
    decreases ns
  {
    if ns.Cons? {
      var (v, u) := Eval(ns.head, I, w);
      if v.Ok? { FlattenSame(ns.tail, I, u, v.v); }
      if ns.head.kind.Seq? {
        AppendSeq(ns.head.kind.items, Flatten(ns.tail), I, w, last);
        assert EvalSeq(ns.head.kind.items, I, w, last) == EvalSeq(ns.head.kind.items, I, w, Void);
      }
    }
  }

  lemma {:induction false} AppendSound(a: Nodes, b: Nodes, I: Interp, disabled: set<Prim>, depth: nat)
    requires AllSoundHere(a, I, disabled, depth) && AllSoundHere(b, I, disabled, depth)
    ensures AllSoundHere(Append(a, b), I, disabled, depth)
    decreases a
  {
    if a.Cons? { AppendSound(a.tail, b, I, disabled, depth); }
  }

  lemma {:induction false} FlattenSound(ns: Nodes, I: Interp, disabled: set<Prim>, depth: nat)
    requires AllSoundHere(ns, I, disabled, depth)
    ensures AllSoundHere(Flatten(ns), I, disabled, depth)
    decreases ns
  {
    if ns.Cons? {
      FlattenSound(ns.tail, I, disabled, depth);
      if ns.head.kind.Seq? {
        AppendSound(ns.head.kind.items, Flatten(ns.tail), I, disabled, depth);
      }
    }
  }

  predicate NoSeqs(ns: Nodes) {
    ns.Cons? ==> !ns.head.kind.Seq? && NoSeqs(ns.tail)
  }

  /** A sequence that is not empty and has no sequence directly inside. */
  predicate FlatSeq(n: Node) {
    n.kind.Seq? ==> n.kind.items.Cons? && NoSeqs(n.kind.items)
  }

  predicate AllFlat(ns: Nodes) {
    ns.Cons? ==> FlatSeq(ns.head) && AllFlat(ns.tail)
  }

  lemma {:induction false} AppendNoSeqs(a: Nodes, b: Nodes)
    requires NoSeqs(a) && NoSeqs(b)
    ensures NoSeqs(Append(a, b))
  {
    if a.Cons? { AppendNoSeqs(a.tail, b); }
  }

  lemma {:induction false} FlattenNoSeqs(ns: Nodes)
    requires AllFlat(ns)
    ensures NoSeqs(Flatten(ns)) && NoEmptySeq(ns)
  {
    if ns.Cons? {
      FlattenNoSeqs(ns.tail);
      if ns.head.kind.Seq? { AppendNoSeqs(ns.head.kind.items, Flatten(ns.tail)); }
    }
  }

  /** Optimized sequences are flat: splicing once is splicing all. */
  lemma {:induction false} OptimizedIsFlat(n: Node, disabled: set<Prim>, depth: nat)
    ensures FlatSeq(Optimize(n, disabled, depth))
    decreases n, 0
  {
    match n.kind
    case If(t, c, a) =>
      OptimizedIsFlat(c, disabled, depth);
      if a.Some? { OptimizedIsFlat(a.value, disabled, depth); }
    case Seq(items) => AllOptimizedFlat(items, disabled, depth); FlattenNoSeqs(OptimizeAll(items, disabled, depth));
    case PrimCall(_, _, args) => AllOptimizedFlat(args, disabled, depth);
    case _ =>
  }

  lemma {:induction false} AllOptimizedFlat(ns: Nodes, disabled: set<Prim>, depth: nat)
    ensures AllFlat(OptimizeAll(ns, disabled, depth))
    decreases ns, 0
  {
    if ns.Cons? {
      OptimizedIsFlat(ns.head, disabled, depth);
      AllOptimizedFlat(ns.tail, disabled, depth);
    }
  }

  // ---- well-formed trees stay so ----------------------------------------------

  lemma {:induction false} AppendWellFormed(a: Nodes, b: Nodes)
    requires AllWellFormed(a) && AllWellFormed(b)
    ensures AllWellFormed(Append(a, b))
  {
    if a.Cons? { AppendWellFormed(a.tail, b); }
  }

  lemma {:induction false} FlattenWellFormed(ns: Nodes)
    requires AllWellFormed(ns)
    ensures AllWellFormed(Flatten(ns))
  {
    if ns.Cons? {
      FlattenWellFormed(ns.tail);
      if ns.head.kind.Seq? { AppendWellFormed(ns.head.kind.items, Flatten(ns.tail)); }
    }
  }

  lemma {:induction false} OptimizedIsWellFormed(n: Node, disabled: set<Prim>, depth: nat)
    requires WellFormed(n)
    ensures WellFormed(Optimize(n, disabled, depth))
    decreases n, 0
  {
    match n.kind
    case If(t, c, a) =>
      OptimizedIsWellFormed(t, disabled, depth);
      OptimizedIsWellFormed(c, disabled, depth);
      if a.Some? { OptimizedIsWellFormed(a.value, disabled, depth); }
    case Lambda(_, body) => AllOptimizedWellFormed(body, disabled, depth + 1);
    case Seq(items) => AllOptimizedWellFormed(items, disabled, depth); FlattenWellFormed(OptimizeAll(items, disabled, depth));
    case Call(f, args) => OptimizedIsWellFormed(f, disabled, depth); AllOptimizedWellFormed(args, disabled, depth);
    case Set(_, v) => OptimizedIsWellFormed(v, disabled, depth);
    case Define(_, v) => OptimizedIsWellFormed(v, disabled, depth);
    case And(items) => AllOptimizedWellFormed(items, disabled, depth);
    case Or(items) => AllOptimizedWellFormed(items, disabled, depth);
    case PrimCall(_, _, args) => AllOptimizedWellFormed(args, disabled, depth);
    case _ =>
  }

  lemma {:induction false} AllOptimizedWellFormed(ns: Nodes, disabled: set<Prim>, depth: nat)
    requires AllWellFormed(ns)
    ensures AllWellFormed(OptimizeAll(ns, disabled, depth))
    decreases ns, 0
  {
    if ns.Cons? {
      OptimizedIsWellFormed(ns.head, disabled, depth);
      AllOptimizedWellFormed(ns.tail, disabled, depth);
    }
  }

  // ---- each rewriting keeps the meaning -----------------------------------------

  ghost predicate KeptHere(m: Node, n: Node, I: Interp, disabled: set<Prim>, depth: nat) {
    SameHere(m, n, I, disabled, depth) && SoundHere(m, I, disabled, depth)
  }

  lemma SwapNotKeeps(n: Node, I: Interp, disabled: set<Prim>, depth: nat)
    requires n.kind.If? && WellFormed(n) && BuiltinsAct(I) && SoundHere(n, I, disabled, depth)
    ensures KeptHere(SwapNot(n, disabled, depth), n, I, disabled, depth) && SwapNot(n, disabled, depth).kind.If?
  {
    var m := SwapNot(n, disabled, depth);
    if m != n {
      assert SoundHere(n.kind.test, I, disabled, depth) && AllSoundHere(n.kind.test.kind.args, I, disabled, depth);
      forall w: World | Assumed(I, disabled, depth, w) ensures Eval(m, I, w) == Eval(n, I, w) {
        NotIs(n.kind.test, I, disabled, w);
      }
    }
  }

  /** A call of not negates its operand. */
  lemma NotIs(t: Node, I: Interp, disabled: set<Prim>, w: World)
    requires t.kind.PrimCall? && t.kind.prim == Not && Not !in disabled && WellFormed(t)
    requires t.kind.args.Cons? && t.kind.args.tail.Nil?
    requires BuiltinsAct(I) && Holds(I, disabled, w)
    ensures var (v, u) := Eval(t.kind.args.head, I, w);
            Eval(t, I, w) == (if v.Raise? then v else Ok(Bool(v.v == False)), u)
  {
    var args := t.kind.args;
    var (v, u) := Eval(args.head, I, w);
    assert I.lookup(t.kind.symbol, w) == Ok(Builtin(Not));
    assert Eval(t, I, w) == EvalCall(Builtin(Not), args, I, w);
    assert EvalArgs(args.tail, I, u) == (Values([]), u);
    if v.Ok? {
      assert I.call(Builtin(Not), [v.v], u) == (BuiltinResult(Not, [v.v]), u);
      assert [v.v] + [] == [v.v];
      assert EvalArgs(args, I, w) == (Values([v.v]), u);
      assert EvalCall(Builtin(Not), args, I, w) == I.call(Builtin(Not), [v.v], u);
    } else {
      assert EvalArgs(args, I, w) == (Failed(v.error), u);
    }
  }

  lemma TakeKnownKeeps(n: Node, I: Interp, disabled: set<Prim>, depth: nat)
    requires n.kind.If? && SoundHere(n, I, disabled, depth)
    ensures KeptHere(TakeKnown(n), n, I, disabled, depth)
  {
  }

  /** A primitive call whose operands are known is its result. */
  lemma KnownCallIs(n: Node, I: Interp, disabled: set<Prim>, w: World)
    requires n.kind.PrimCall? && WellFormed(n) && n.kind.prim !in disabled && KnownArgs(n.kind.args).Some?
    requires BuiltinsAct(I) && AllSoundHere(n.kind.args, I, disabled, 0) && Holds(I, disabled, w)
    ensures Eval(n, I, w) == (BuiltinResult(n.kind.prim, KnownArgs(n.kind.args).value), w)
  {
    KnownArgsAre(n.kind.args, I, disabled, 0, w);
    assert I.lookup(n.kind.symbol, w) == Ok(Builtin(n.kind.prim));
  }

  lemma FoldedKeeps(n: Node, I: Interp, disabled: set<Prim>)
    requires n.kind.PrimCall? && WellFormed(n) && n.kind.prim !in disabled && BuiltinsAct(I)
    requires AllSoundHere(n.kind.args, I, disabled, 0) && KnownArgs(n.kind.args).Some?
    requires FoldPrim(n.kind.prim, KnownArgs(n.kind.args).value).Some?
    ensures KeptHere(LiteralNode(FoldPrim(n.kind.prim, KnownArgs(n.kind.args).value).value), n, I, disabled, 0)
  {
    FoldIsBuiltin(n.kind.prim, KnownArgs(n.kind.args).value);
    forall w: World | Assumed(I, disabled, 0, w)
      ensures Eval(n, I, w) == (Ok(FoldPrim(n.kind.prim, KnownArgs(n.kind.args).value).value), w)
    {
      KnownCallIs(n, I, disabled, w);
    }
  }

  lemma TwoSum(a: Value, b: Value)
    requires a.Int? && b.Int?
    ensures Sum([a, b]) == a.n + b.n && Product([a, b]) == a.n * b.n && Sum([a, b][1..]) == b.n
  {
    assert [a, b][..1] == [a] && [a][..0] == [] && [a, b][1..] == [b] && [b][..0] == [];
    assert Sum([]) == 0 && Sum([a]) == a.n && Sum([b]) == b.n;
    assert Product([]) == 1 && Product([a]) == a.n;
  }

  lemma IdentityKeeps(n: Node, I: Interp, disabled: set<Prim>)
    requires n.kind.PrimCall? && WellFormed(n) && n.kind.prim !in disabled && BuiltinsAct(I)
    requires SoundHere(n, I, disabled, 0)
    ensures KeptHere(SimplifyIdentity(n), n, I, disabled, 0)
  {
    var m := SimplifyIdentity(n);
    if m != n {
      var a, b := n.kind.args.head, n.kind.args.tail.head;
      assert AllSoundHere(n.kind.args, I, disabled, 0) && AllSoundHere(n.kind.args.tail, I, disabled, 0);
      assert SoundHere(a, I, disabled, 0) && SoundHere(b, I, disabled, 0);
      assert ConstantHere(m, m.known.value, I, disabled, 0);
      assert KnownArgs(n.kind.args.tail) == Some([b.known.value]) by {
        assert [b.known.value] + [] == [b.known.value];
      }
      assert KnownArgs(n.kind.args) == Some([a.known.value, b.known.value]) by {
        assert [a.known.value] + [b.known.value] == [a.known.value, b.known.value];
      }
      TwoSum(a.known.value, b.known.value);
      forall w: World | Assumed(I, disabled, 0, w) ensures Eval(m, I, w) == Eval(n, I, w) {
        KnownCallIs(n, I, disabled, w);
        assert Eval(m, I, w) == (Ok(m.known.value), w);
      }
    }
  }

  // ---- the pass ---------------------------------------------------------------

  /** The same constructor over parts that mean the same where the names hold. */
  ghost predicate PartsHere(m: Node, n: Node, I: Interp, disabled: set<Prim>, depth: nat) {
    match m.kind
    case If(t, c, a) =>
      && n.kind.If? && SameHere(t, n.kind.test, I, disabled, depth) && SameHere(c, n.kind.consequent, I, disabled, depth)
      && a.Some? == n.kind.alternate.Some? && (a.Some? ==> SameHere(a.value, n.kind.alternate.value, I, disabled, depth))
    case Lambda(p, body) => n.kind.Lambda? && n.kind.params == p && I.closure(p, body) == I.closure(p, n.kind.body)
    case Seq(items) => n.kind.Seq? && AllSameHere(items, n.kind.items, I, disabled, depth)
    case Call(f, args) =>
      n.kind.Call? && SameHere(f, n.kind.callee, I, disabled, depth) && AllSameHere(args, n.kind.args, I, disabled, depth)
    case Set(x, v) => n.kind.Set? && n.kind.x == x && SameHere(v, n.kind.value, I, disabled, depth)
    case Define(x, v) => n.kind.Define? && n.kind.x == x && SameHere(v, n.kind.value, I, disabled, depth)
    case And(items) => n.kind.And? && AllSameHere(items, n.kind.items, I, disabled, depth)
    case Or(items) => n.kind.Or? && AllSameHere(items, n.kind.items, I, disabled, depth)
    case PrimCall(p, x, args) =>
      n.kind.PrimCall? && n.kind.prim == p && n.kind.symbol == x && AllSameHere(args, n.kind.args, I, disabled, depth)
    case _ => n.kind == m.kind
  }

  lemma PartsHereWhole(m: Node, n: Node, I: Interp, disabled: set<Prim>, depth: nat)
    requires PartsHere(m, n, I, disabled, depth) && Tame(I) && Covers(n, I, disabled, depth)
    ensures SameHere(m, n, I, disabled, depth)
  {
    hide Tame;
    forall w: World | Assumed(I, disabled, depth, w) ensures Eval(m, I, w) == Eval(n, I, w) {
      PartsAt(m, n, I, disabled, depth, w);
    }
  }

  lemma PartsAt(m: Node, n: Node, I: Interp, disabled: set<Prim>, depth: nat, w: World)
    requires PartsHere(m, n, I, disabled, depth) && Tame(I) && Covers(n, I, disabled, depth)
    requires Assumed(I, disabled, depth, w)
    ensures Eval(m, I, w) == Eval(n, I, w)
  {
    hide Tame, Assumed, AllSameHere, EvalSeq, EvalUntil, EvalArgs;
    match n.kind
    case If(_, _, _) => IfAt(m, n, I, disabled, depth, w);
    case Seq(items) => SeqHere(m.kind.items, items, I, disabled, depth, w, Void);
    case And(items) => UntilHere(m.kind.items, items, false, I, disabled, depth, w);
    case Or(items) => UntilHere(m.kind.items, items, true, I, disabled, depth, w);
    case Call(_, _) => CallAt(m, n, I, disabled, depth, w);
    case PrimCall(_, _, args) => ArgsHere(m.kind.args, args, I, disabled, depth, w);
    case _ =>
  }

  lemma IfAt(m: Node, n: Node, I: Interp, disabled: set<Prim>, depth: nat, w: World)
    requires n.kind.If? && PartsHere(m, n, I, disabled, depth) && Tame(I) && Covers(n, I, disabled, depth)
    requires Assumed(I, disabled, depth, w)
    ensures Eval(m, I, w) == Eval(n, I, w)
  {
    hide Tame, Assumed;
    AssumedAfter(n.kind.test, I, disabled, depth, w);
  }

  lemma CallAt(m: Node, n: Node, I: Interp, disabled: set<Prim>, depth: nat, w: World)
    requires n.kind.Call? && PartsHere(m, n, I, disabled, depth) && Tame(I) && Covers(n, I, disabled, depth)
    requires Assumed(I, disabled, depth, w)
    ensures Eval(m, I, w) == Eval(n, I, w)
  {
    hide Tame, Assumed, AllSameHere, EvalArgs;
    AssumedAfter(n.kind.callee, I, disabled, depth, w);
    ArgsHere(m.kind.args, n.kind.args, I, disabled, depth, Eval(n.kind.callee, I, w).1);
  }

  lemma KeptTwice(m: Node, k: Node, n: Node, I: Interp, disabled: set<Prim>, depth: nat)
    requires KeptHere(m, k, I, disabled, depth) && SameHere(k, n, I, disabled, depth)
    ensures KeptHere(m, n, I, disabled, depth)
  {
  }

  /** A node keeps what it was known to be when it keeps its meaning. */
  lemma KnownStays(m: Node, n: Node, I: Interp, disabled: set<Prim>, depth: nat)
    requires SameHere(m, n, I, disabled, depth) && m.known == n.known && Sound(n, I)
    ensures m.known.Some? ==> ConstantHere(m, m.known.value, I, disabled, depth)
  {
  }

  lemma {:induction false} OptimizeKeeps(n: Node, I: Interp, disabled: set<Prim>, depth: nat)
    requires Laws(I) && Sound(n, I) && WellFormed(n) && Covers(n, I, disabled, depth)
    ensures KeptHere(Optimize(n, disabled, depth), n, I, disabled, depth)
    decreases n, 1
  {
    hide Laws, SameHere, ConstantHere, SoundHere, AllSoundHere, TakeKnown, SwapNot, OptimizeSeq, OptimizePrim;
    match n.kind
    case If(_, _, _) => IfKeeps(n, I, disabled, depth);
    case Lambda(_, _) => LambdaKeeps(n, I, disabled, depth);
    case Seq(_) => SeqKeeps(n, I, disabled, depth);
    case PrimCall(_, _, _) => PrimKeeps(n, I, disabled, depth);
    case _ => RestKeeps(n, I, disabled, depth);
  }

  lemma {:induction false} AllKeep(ns: Nodes, I: Interp, disabled: set<Prim>, depth: nat)
    requires Laws(I) && AllSound(ns, I) && AllWellFormed(ns) && CoversAll(ns, I, disabled, depth)
    ensures AllSameHere(OptimizeAll(ns, disabled, depth), ns, I, disabled, depth)
    ensures AllSoundHere(OptimizeAll(ns, disabled, depth), I, disabled, depth)
    decreases ns, 1
  {
    hide Laws, SameHere, ConstantHere, SoundHere, Optimize;
    if ns.Cons? {
      OptimizeKeeps(ns.head, I, disabled, depth);
      AllKeep(ns.tail, I, disabled, depth);
    }
  }

  lemma {:induction false} IfKeeps(n: Node, I: Interp, disabled: set<Prim>, depth: nat)
    requires n.kind.If? && Laws(I) && Sound(n, I) && WellFormed(n) && Covers(n, I, disabled, depth)
    ensures KeptHere(Optimize(n, disabled, depth), n, I, disabled, depth)
    decreases n, 0
  {
    var If(t, c, a) := n.kind;
    OptimizeKeeps(t, I, disabled, depth);
    OptimizeKeeps(c, I, disabled, depth);
    if a.Some? { OptimizeKeeps(a.value, I, disabled, depth); }
    var m := n.(kind := If(Optimize(t, disabled, depth), Optimize(c, disabled, depth),
                           if a.Some? then Some(Optimize(a.value, disabled, depth)) else None));
    OptimizedIsWellFormed(t, disabled, depth);
    OptimizedIsWellFormed(c, disabled, depth);
    if a.Some? { OptimizedIsWellFormed(a.value, disabled, depth); }
    hide Tame, SameHere, Extensional, BuiltinsAct, Sound, TakeKnown, SwapNot, ConstantHere;
    PartsHereWhole(m, n, I, disabled, depth);
    KnownStays(m, n, I, disabled, depth);
    SwapNotKeeps(m, I, disabled, depth);
    var k := SwapNot(m, disabled, depth);
    KeptTwice(k, m, n, I, disabled, depth);
    TakeKnownKeeps(k, I, disabled, depth);
    KeptTwice(TakeKnown(k), k, n, I, disabled, depth);
  }

  lemma {:induction false} LambdaKeeps(n: Node, I: Interp, disabled: set<Prim>, depth: nat)
    requires n.kind.Lambda? && Laws(I) && Sound(n, I) && WellFormed(n)
    ensures KeptHere(Optimize(n, disabled, depth), n, I, disabled, depth)
    decreases n, 0
  {
    var m := Optimize(n, disabled, depth);
    AllKeep(n.kind.body, I, disabled, depth + 1);
    forall w: World, last ensures EvalSeq(m.kind.body, I, w, last) == EvalSeq(n.kind.body, I, w, last) {
      SeqHere(m.kind.body, n.kind.body, I, disabled, depth + 1, w, last);
    }
    assert I.closure(n.kind.params, m.kind.body) == I.closure(n.kind.params, n.kind.body);
  }

  lemma {:induction false} SeqKeeps(n: Node, I: Interp, disabled: set<Prim>, depth: nat)
    requires n.kind.Seq? && Laws(I) && Sound(n, I) && WellFormed(n) && Covers(n, I, disabled, depth)
    ensures KeptHere(Optimize(n, disabled, depth), n, I, disabled, depth)
    decreases n, 0
  {
    var items := OptimizeAll(n.kind.items, disabled, depth);
    AllKeep(n.kind.items, I, disabled, depth);
    AllOptimizedFlat(n.kind.items, disabled, depth);
    FlattenNoSeqs(items);
    FlattenSound(items, I, disabled, depth);
    var flat := Flatten(items);
    forall w: World | Assumed(I, disabled, depth, w) ensures EvalSeq(flat, I, w, Void) == Eval(n, I, w) {
      FlattenSame(items, I, w, Void);
      SeqHere(items, n.kind.items, I, disabled, depth, w, Void);
    }
    FlatKeeps(n, items, I, disabled, depth);
  }

  lemma FlatKeeps(n: Node, items: Nodes, I: Interp, disabled: set<Prim>, depth: nat)
    requires Sound(n, I) && AllSoundHere(Flatten(items), I, disabled, depth)
    requires forall w: World | Assumed(I, disabled, depth, w) :: EvalSeq(Flatten(items), I, w, Void) == Eval(n, I, w)
    ensures KeptHere(OptimizeSeq(n, items), n, I, disabled, depth)
  {
    hide Assumed;
    var flat := Flatten(items);
    if flat.Cons? && flat.tail.Nil? {
      forall w: World | Assumed(I, disabled, depth, w) ensures Eval(flat.head, I, w) == Eval(n, I, w) {
        assert EvalSeq(flat, I, w, Void) == Eval(flat.head, I, w);
      }
    } else if flat.Cons? {
      KnownStays(n.(kind := Seq(flat)), n, I, disabled, depth);
    }
  }

  lemma {:induction false} PrimKeeps(n: Node, I: Interp, disabled: set<Prim>, depth: nat)
    requires n.kind.PrimCall? && Laws(I) && Sound(n, I) && WellFormed(n) && Covers(n, I, disabled, depth)
    ensures KeptHere(Optimize(n, disabled, depth), n, I, disabled, depth)
    decreases n, 0
  {
    var args := OptimizeAll(n.kind.args, disabled, depth);
    AllKeep(n.kind.args, I, disabled, depth);
    AllOptimizedWellFormed(n.kind.args, disabled, depth);
    var m := n.(kind := PrimCall(n.kind.prim, n.kind.symbol, args));
    hide Tame, SameHere, Extensional, BuiltinsAct, Sound, SimplifyIdentity, ConstantHere, KnownArgs, FoldPrim;
    PartsHereWhole(m, n, I, disabled, depth);
    KnownStays(m, n, I, disabled, depth);
    if Enabled(n.kind.prim, disabled, depth) {
      IdentityKeeps(m, I, disabled);
      KeptTwice(SimplifyIdentity(m), m, n, I, disabled, depth);
      if KnownArgs(args).Some? && FoldPrim(n.kind.prim, KnownArgs(args).value).Some? {
        FoldedKeeps(m, I, disabled);
        KeptTwice(LiteralNode(FoldPrim(n.kind.prim, KnownArgs(args).value).value), m, n, I, disabled, depth);
      }
    }
  }

  lemma {:induction false} RestKeeps(n: Node, I: Interp, disabled: set<Prim>, depth: nat)
    requires Laws(I) && Sound(n, I) && WellFormed(n) && Covers(n, I, disabled, depth)
    requires !n.kind.If? && !n.kind.Lambda? && !n.kind.Seq? && !n.kind.PrimCall?
    ensures KeptHere(Optimize(n, disabled, depth), n, I, disabled, depth)
    decreases n, 0
  {
    match n.kind {
      case Call(f, args) => OptimizeKeeps(f, I, disabled, depth); AllKeep(args, I, disabled, depth);
      case Set(_, v) => OptimizeKeeps(v, I, disabled, depth);
      case Define(_, v) => OptimizeKeeps(v, I, disabled, depth);
      case And(items) => AllKeep(items, I, disabled, depth);
      case Or(items) => AllKeep(items, I, disabled, depth);
      case _ => SameItself(n, I, disabled, depth);
    }
    WholeKeeps(Optimize(n, disabled, depth), n, I, disabled, depth);
  }

  ghost predicate PartsSound(m: Node, I: Interp, disabled: set<Prim>, depth: nat) {
    match m.kind
    case Call(f, args) => SoundHere(f, I, disabled, depth) && AllSoundHere(args, I, disabled, depth)
    case Set(_, v) => SoundHere(v, I, disabled, depth)
    case Define(_, v) => SoundHere(v, I, disabled, depth)
    case And(items) => AllSoundHere(items, I, disabled, depth)
    case Or(items) => AllSoundHere(items, I, disabled, depth)
    case If(_, _, _) => false
    case Seq(_) => false
    case PrimCall(_, _, _) => false
    case _ => true
  }

  lemma WholeKeeps(m: Node, n: Node, I: Interp, disabled: set<Prim>, depth: nat)
    requires PartsHere(m, n, I, disabled, depth) && PartsSound(m, I, disabled, depth) && m.known == n.known
    requires Tame(I) && Sound(n, I) && Covers(n, I, disabled, depth)
    ensures KeptHere(m, n, I, disabled, depth)
  {
    PartsHereWhole(m, n, I, disabled, depth);
    KnownStays(m, n, I, disabled, depth);
  }

  lemma SameItself(n: Node, I: Interp, disabled: set<Prim>, depth: nat)
    ensures SameHere(n, n, I, disabled, depth)
  {
  }

  // ---- the whole pass ---------------------------------------------------------

  lemma {:induction false} FreshIsSound(n: Node, I: Interp)
    requires Fresh(n)
    ensures Sound(n, I)
    decreases n, 0
  {
    match n.kind
    case If(t, c, a) =>
      FreshIsSound(t, I);
      FreshIsSound(c, I);
      if a.Some? { FreshIsSound(a.value, I); }
    case Lambda(_, body) => AllFreshSound(body, I);
    case Seq(items) => AllFreshSound(items, I);
    case Call(f, args) => FreshIsSound(f, I); AllFreshSound(args, I);
    case Set(_, v) => FreshIsSound(v, I);
    case Define(_, v) => FreshIsSound(v, I);
    case And(items) => AllFreshSound(items, I);
    case Or(items) => AllFreshSound(items, I);
    case PrimCall(_, _, args) => AllFreshSound(args, I);
    case _ =>
  }

  lemma {:induction false} AllFreshSound(ns: Nodes, I: Interp)
    requires AllFresh(ns)
    ensures AllSound(ns, I)
    decreases ns, 0
  {
    if ns.Cons? {
      FreshIsSound(ns.head, I);
      AllFreshSound(ns.tail, I);
    }
  }

  /** A tree as it is built: nothing is known of any node yet. */
  predicate Fresh(n: Node)
    decreases n
  {
    && n.known.None?
    && match n.kind
       case If(t, c, a) => Fresh(t) && Fresh(c) && (a.Some? ==> Fresh(a.value))
       case Lambda(_, body) => AllFresh(body)
       case Seq(items) => AllFresh(items)
       case Call(f, args) => Fresh(f) && AllFresh(args)
       case Set(_, v) => Fresh(v)
       case Define(_, v) => Fresh(v)
       case And(items) => AllFresh(items)
       case Or(items) => AllFresh(items)
       case PrimCall(_, _, args) => AllFresh(args)
       case _ => true
  }

  predicate AllFresh(ns: Nodes)
    decreases ns
  {
    ns.Cons? ==> Fresh(ns.head) && AllFresh(ns.tail)
  }

  /** Analysis changes marks only. */
  lemma {:induction false} AnalyzeSame(n: Node, I: Interp)
    requires Extensional(I)
    ensures Same(n, Analyze(n), I)
    decreases n, 0
  {
    hide Extensional, Same;
    match n.kind {
      case If(t, c, a) =>
        AnalyzeSame(t, I);
        AnalyzeSame(c, I);
        if a.Some? { AnalyzeSame(a.value, I); }
      case Lambda(_, body) => AllAnalyzeSame(body, I);
      case Seq(items) => AllAnalyzeSame(items, I);
      case Call(f, args) => AnalyzeSame(f, I); AllAnalyzeSame(args, I);
      case Set(_, v) => AnalyzeSame(v, I);
      case Define(_, v) => AnalyzeSame(v, I);
      case And(items) => UntilAnalyzeSame(items, false, I);
      case Or(items) => UntilAnalyzeSame(items, true, I);
      case PrimCall(_, _, args) => AllAnalyzeSame(args, I);
      case _ =>
    }
    SamePartsSameWhole(n, Analyze(n), I);
  }

  lemma {:induction false} AllAnalyzeSame(ns: Nodes, I: Interp)
    requires Extensional(I)
    ensures SameAll(ns, AnalyzeAll(ns), I)
    decreases ns, 0
  {
    if ns.Cons? {
      AnalyzeSame(ns.head, I);
      AllAnalyzeSame(ns.tail, I);
    }
  }

  lemma {:induction false} UntilAnalyzeSame(ns: Nodes, stop: bool, I: Interp)
    requires Extensional(I)
    ensures SameAll(ns, AnalyzeUntil(ns, stop).0, I)
    decreases ns, 0
  {
    if ns.Cons? {
      AnalyzeSame(ns.head, I);
      SameSelf(ns.tail, I);
      UntilAnalyzeSame(ns.tail, stop, I);
    }
  }

  lemma {:induction false} AnalyzeWellFormed(n: Node)
    requires WellFormed(n)
    ensures WellFormed(Analyze(n))
    decreases n, 0
  {
    match n.kind
    case If(t, c, a) =>
      AnalyzeWellFormed(t);
      AnalyzeWellFormed(c);
      if a.Some? { AnalyzeWellFormed(a.value); }
    case Lambda(_, body) => AllAnalyzeWellFormed(body);
    case Seq(items) => AllAnalyzeWellFormed(items);
    case Call(f, args) => AnalyzeWellFormed(f); AllAnalyzeWellFormed(args);
    case Set(_, v) => AnalyzeWellFormed(v);
    case Define(_, v) => AnalyzeWellFormed(v);
    case And(items) => UntilAnalyzeWellFormed(items, false);
    case Or(items) => UntilAnalyzeWellFormed(items, true);
    case PrimCall(_, _, args) => AllAnalyzeWellFormed(args);
    case _ =>
  }

  lemma {:induction false} AllAnalyzeWellFormed(ns: Nodes)
    requires AllWellFormed(ns)
    ensures AllWellFormed(AnalyzeAll(ns))
    decreases ns, 0
  {
    if ns.Cons? {
      AnalyzeWellFormed(ns.head);
      AllAnalyzeWellFormed(ns.tail);
    }
  }

  lemma {:induction false} UntilAnalyzeWellFormed(ns: Nodes, stop: bool)
    requires AllWellFormed(ns)
    ensures AllWellFormed(AnalyzeUntil(ns, stop).0)
    decreases ns, 0
  {
    if ns.Cons? {
      AnalyzeWellFormed(ns.head);
      UntilAnalyzeWellFormed(ns.tail, stop);
    }
  }

  /** Analysis and optimization of a tree just lowered keep its value, its errors
      and what it does to the world, where every arithmetic name that is not
      disabled by the ambient bindings is bound to its primitive. */
  lemma PassKeepsMeaning(root: Node, I: Interp, ambient: set<Prim>, w: World)
    requires Laws(I) && Fresh(root) && WellFormed(root) && Holds(I, ambient, w)
    ensures Eval(OptimizeTree(Analyze(root), I, ambient), I, w) == Eval(root, I, w)
  {
    FreshIsSound(root, I);
    AnalyzeIsSound(root, I);
    AnalyzeWellFormed(root);
    var tree := Analyze(root);
    var disabled := ambient + Redefined(tree, I, 0);
    OptimizeKeeps(tree, I, disabled, 0);
    AnalyzeSame(Optimize(tree, disabled, 0), I);
    assert Holds(I, disabled, w);
    assert Assumed(I, disabled, 0, w);
  }

  /** A known constant is one: it evaluates to its value without effects. */
  lemma KnownIsConstant(root: Node, I: Interp)
    requires Extensional(I) && Fresh(root)
    ensures Sound(Analyze(root), I)
  {
    FreshIsSound(root, I);
    AnalyzeIsSound(root, I);
  }
}
