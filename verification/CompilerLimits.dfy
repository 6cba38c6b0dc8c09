/** When an expression compiles: its forms, the registers it needs, the jumps over
    its parts, and the constants and captured names it adds to the tables. */
module CompilerLimits {
  import opened Bytecode
  import opened CompilerSpec
  import opened CompilerProofs

  // ---- what an expression asks for, told from its text -------------------------

  /** An if has at most one alternate, a call at most 200 operands, and no more
      operands of and, or are jumped from than there is room for. */
  predicate WellFormed(e: Expr)
    decreases e
  {
    match e
    case SetVar(_, e0) => WellFormed(e0)
    case If(test, consequent, rest) => WellFormed(test) && WellFormed(consequent) && Count(rest) <= 1 && AllWellFormed(rest)
    case Begin(es) => AllWellFormed(es)
    case And(es) => Count(es) <= MAX_JUMPS + 1 && AllWellFormed(es)
    case Or(es) => Count(es) <= MAX_JUMPS + 1 && AllWellFormed(es)
    case Apply(f, args) => Count(args) <= MAX_ARGS && WellFormed(f) && AllWellFormed(args)
    case _ => true
  }

  predicate AllWellFormed(es: Exprs)
    decreases es
  {
    es.Cons? ==> WellFormed(es.head) && AllWellFormed(es.tail)
  }

  function Max(a: nat, b: nat): nat {
    if a >= b then a else b
  }

  /** How many registers are in use at most, those below `next` and the `n` locals
      being taken: a test, an assigned value and an operator with its operands are
      held in registers of their own. */
  function Registers(e: Expr, n: nat, next: nat): nat
    decreases e
  {
    var r := Max(n, next);
    match e
    case SetVar(_, e0) => Max(r + 1, Registers(e0, n, r + 1))
    case If(test, consequent, rest) =>
      Max(Max(r + 1, Registers(test, n, r + 1)), Max(Registers(consequent, n, r), RegistersOf(rest, n, r)))
    case Begin(es) => RegistersOf(es, n, next)
    case And(es) => RegistersOf(es, n, next)
    case Or(es) => RegistersOf(es, n, next)
    case Apply(f, args) =>
      var top := r + Count(args) + 1;
      Max(top, Max(Registers(f, n, top), RegistersOf(args, n, top)))
    case _ => 0
  }

  function RegistersOf(es: Exprs, n: nat, next: nat): nat
    decreases es
  {
    if es.Nil? then 0 else Max(Registers(es.head, n, next), RegistersOf(es.tail, n, next))
  }

  /** Bytes of code: two to load an immediate, four for a constant or a test and its
      jump, three for everything else. */
  function CodeSize(e: Expr, n: nat, dst: nat, next: nat): nat
    decreases e
  {
    var r := Max(n, next);
    match e
    case Const(v) => if v.Other? then 4 else 2
    case Var(_) => 3
    case SetVar(_, e0) => CodeSize(e0, n, r, r + 1) + 6
    case If(test, consequent, rest) =>
      CodeSize(test, n, r, r + 1) + 4 + CodeSize(consequent, n, dst, r) + 3 + AlternateSize(rest, n, dst, r)
    case Begin(es) => if es.Nil? then 2 else InTurn(es, n, dst, next)
    case And(es) => if es.Nil? then 2 else InTurn(es, n, dst, next) + 4 * (Count(es) - 1)
    case Or(es) => if es.Nil? then 2 else InTurn(es, n, dst, next) + 4 * (Count(es) - 1)
    case Apply(f, args) =>
      var top := r + Count(args) + 1;
      CodeSize(f, n, r, top) + SideBySide(args, n, r + 1, top) + 3 + if dst == r then 0 else 3
  }

  function AlternateSize(rest: Exprs, n: nat, dst: nat, next: nat): nat
    decreases rest
  {
    if rest.Cons? then CodeSize(rest.head, n, dst, next) else 2
  }

  /** Expressions one after the other into one register. */
  function InTurn(es: Exprs, n: nat, dst: nat, next: nat): nat
    decreases es
  {
    if es.Nil? then 0 else CodeSize(es.head, n, dst, next) + InTurn(es.tail, n, dst, next)
  }

  /** Expressions into registers next to each other. */
  function SideBySide(es: Exprs, n: nat, reg: nat, next: nat): nat
    decreases es
  {
    if es.Nil? then 0 else CodeSize(es.head, n, reg, next) + SideBySide(es.tail, n, reg + 1, next)
  }

  /** No jump is longer than an offset says: over a consequent and the jump behind it,
      over an alternate, and over the operands of and, or that follow. */
  predicate JumpsReach(e: Expr, n: nat, dst: nat, next: nat)
    decreases e
  {
    var r := Max(n, next);
    match e
    case SetVar(_, e0) => JumpsReach(e0, n, r, r + 1)
    case If(test, consequent, rest) =>
      && JumpsReach(test, n, r, r + 1) && JumpsReach(consequent, n, dst, r) && AllReach(rest, n, dst, r)
      && CodeSize(consequent, n, dst, r) + 3 <= MAX_OFFSET && AlternateSize(rest, n, dst, r) <= MAX_OFFSET
    case Begin(es) => AllReach(es, n, dst, next)
    case And(es) => AllReach(es, n, dst, next) && OperandsReach(es, n, dst, next)
    case Or(es) => AllReach(es, n, dst, next) && OperandsReach(es, n, dst, next)
    case Apply(f, args) =>
      var top := r + Count(args) + 1;
      JumpsReach(f, n, r, top) && EachReaches(args, n, r + 1, top)
    case _ => true
  }

  predicate AllReach(es: Exprs, n: nat, dst: nat, next: nat)
    decreases es
  {
    es.Cons? ==> JumpsReach(es.head, n, dst, next) && AllReach(es.tail, n, dst, next)
  }

  predicate EachReaches(es: Exprs, n: nat, reg: nat, next: nat)
    decreases es
  {
    es.Cons? ==> JumpsReach(es.head, n, reg, next) && EachReaches(es.tail, n, reg + 1, next)
  }

  /** From the first operand the way over all the others, the longest, is an offset. */
  predicate OperandsReach(es: Exprs, n: nat, dst: nat, next: nat) {
    es.Cons? && es.tail.Cons? ==> InTurn(es.tail, n, dst, next) + 4 * (Count(es.tail) - 1) <= MAX_OFFSET
  }

  /** The constants that need a place in the table, and the names that are not local. */
  datatype Refs = Refs(consts: set<Value>, ups: set<Name>)

  function Both(a: Refs, b: Refs): Refs {
    Refs(a.consts + b.consts, a.ups + b.ups)
  }

  const NOTHING := Refs({}, {})

  function NameRefs(locals: seq<Name>, x: Name): Refs {
    if x in locals then NOTHING else Refs({}, {x})
  }

  function RefsIn(e: Expr, locals: seq<Name>): Refs
    decreases e
  {
    match e
    case Const(v) => if v.Other? then Refs({v}, {}) else NOTHING
    case Var(x) => NameRefs(locals, x)
    case SetVar(x, e0) => Both(RefsIn(e0, locals), NameRefs(locals, x))
    case If(test, consequent, rest) => Both(RefsIn(test, locals), Both(RefsIn(consequent, locals), RefsInAll(rest, locals)))
    case Begin(es) => RefsInAll(es, locals)
    case And(es) => RefsInAll(es, locals)
    case Or(es) => RefsInAll(es, locals)
    case Apply(f, args) => Both(RefsIn(f, locals), RefsInAll(args, locals))
  }

  function RefsInAll(es: Exprs, locals: seq<Name>): Refs
    decreases es
  {
    if es.Nil? then NOTHING else Both(RefsIn(es.head, locals), RefsInAll(es.tail, locals))
  }

  // ---- room in the tables --------------------------------------------------------

  function Elems<T>(xs: seq<T>): set<T> {
    set x | x in xs
  }

  /** How long xs gets when what it lacks of S is added. */
  ghost function LengthWith<T>(xs: seq<T>, S: set<T>): nat {
    |xs| + |S - Elems(xs)|
  }

  /** ys is xs with what it lacked of S added. */
  ghost predicate Filled<T>(xs: seq<T>, S: set<T>, ys: seq<T>) {
    Elems(ys) == Elems(xs) + S && |ys| == LengthWith(xs, S)
  }

  /** Every name that is not local can be captured, and both tables have room. */
  ghost predicate RoomFor(sc: Scope, t: Tables, refs: Refs) {
    && LengthWith(t.consts, refs.consts) <= MAX_CONSTS
    && refs.ups <= sc.outer && LengthWith(t.ups, refs.ups) <= MAX_UPVALUES
  }

  ghost predicate TablesWith(t: Tables, refs: Refs, u: Tables) {
    Filled(t.consts, refs.consts, u.consts) && Filled(t.ups, refs.ups, u.ups)
  }

  lemma SizeOfUnion<T>(a: set<T>, b: set<T>)
    requires a !! b
    ensures |a + b| == |a| + |b|
  {
  }

  lemma FilledTwice<T>(xs: seq<T>, S: set<T>, ys: seq<T>, U: set<T>)
    requires Filled(xs, S, ys)
    ensures LengthWith(ys, U) == LengthWith(xs, S + U) >= LengthWith(xs, S)
  {
    var a, b := S - Elems(xs), U - Elems(ys);
    assert S + U - Elems(xs) == a + b;
    SizeOfUnion(a, b);
  }

  lemma RoomForBoth(sc: Scope, t: Tables, a: Refs, u: Tables, b: Refs)
    requires TablesWith(t, a, u)
    ensures RoomFor(sc, t, Both(a, b)) <==> RoomFor(sc, t, a) && RoomFor(sc, u, b)
    ensures forall w :: TablesWith(u, b, w) ==> TablesWith(t, Both(a, b), w)
  {
    FilledTwice(t.consts, a.consts, u.consts, b.consts);
    FilledTwice(t.ups, a.ups, u.ups, b.ups);
    hide LengthWith;
    forall w | TablesWith(u, b, w) ensures TablesWith(t, Both(a, b), w) {
      assert Elems(w.consts) == Elems(t.consts) + (a.consts + b.consts);
      assert Elems(w.ups) == Elems(t.ups) + (a.ups + b.ups);
    }
  }

  lemma LengthGrows<T>(xs: seq<T>, S: set<T>, U: set<T>)
    ensures LengthWith(xs, S) <= LengthWith(xs, S + U)
  {
    var a, b := S - Elems(xs), (U - S) - Elems(xs);
    assert S + U - Elems(xs) == a + b;
    SizeOfUnion(a, b);
  }

  lemma RoomForFirst(sc: Scope, t: Tables, a: Refs, b: Refs)
    requires RoomFor(sc, t, Both(a, b))
    ensures RoomFor(sc, t, a)
  {
    LengthGrows(t.consts, a.consts, b.consts);
    LengthGrows(t.ups, a.ups, b.ups);
  }

  lemma FilledOne<T>(xs: seq<T>, x: T)
    ensures x in xs ==> Filled(xs, {x}, xs)
    ensures x !in xs ==> Filled(xs, {x}, xs + [x]) && LengthWith(xs, {x}) == |xs| + 1
    ensures Filled(xs, {}, xs) && LengthWith(xs, {}) == |xs|
  {
    assert {} - Elems(xs) == {};
    if x in xs {
      assert {x} - Elems(xs) == {};
      assert Elems(xs) + {x} == Elems(xs);
    } else {
      assert {x} - Elems(xs) == {x};
      assert Elems(xs + [x]) == Elems(xs) + {x};
    }
  }

  // ---- the exact condition ---------------------------------------------------------

  /** What is right about the result: there is one exactly when the expression asks
      for nothing too much, and then it is as long as told, and the tables have what
      they lacked. */
  ghost predicate Answers(p: Option<Piece>, fine: bool, sc: Scope, t: Tables, refs: Refs, size: nat, regs: nat) {
    && (p.Some? <==> fine && RoomFor(sc, t, refs))
    && (p.Some? ==> Len(p.value.code) == size && TablesWith(t, refs, p.value.tables) && p.value.tables.maxRegs == Max(t.maxRegs, regs))
  }

  predicate Fine(e: Expr, n: nat, dst: nat, next: nat) {
    WellFormed(e) && Registers(e, n, next) <= REG_LIMIT && JumpsReach(e, n, dst, next)
  }

  /** The compiler gives code exactly for expressions that are well formed, fit the
      registers, the jumps and the tables, and whose names are bound. */
  ghost predicate Compiles(e: Expr, sc: Scope, t: Tables, dst: nat, next: nat) {
    Fine(e, |sc.locals|, dst, next) && RoomFor(sc, t, RefsIn(e, sc.locals))
  }

  predicate Small(t: Tables) {
    |t.consts| <= MAX_CONSTS && |t.ups| <= MAX_UPVALUES
  }

  // ---- how answers combine ------------------------------------------------------------

  /** One piece after the other; none when one is missing. */
  function InOrder(a: Option<Piece>, b: Option<Piece>): Option<Piece> {
    if a.None? || b.None? then None else Some(Piece(a.value.code + b.value.code, b.value.tables))
  }

  function Behind(p: Option<Piece>, code: seq<Instr>): Option<Piece> {
    if p.None? then None else Some(Piece(p.value.code + code, p.value.tables))
  }

  lemma StaysSmall(p: Option<Piece>, fine: bool, sc: Scope, t: Tables, refs: Refs, size: nat, regs: nat)
    requires Answers(p, fine, sc, t, refs, size, regs) && p.Some?
    ensures Small(p.value.tables)
  {
  }

  lemma AnswersInOrder(a: Option<Piece>, b: Option<Piece>, f: bool, g: bool, sc: Scope, t: Tables, x: Refs, y: Refs,
                       m: nat, n: nat, r: nat, q: nat)
    requires Answers(a, f, sc, t, x, m, r)
    requires a.Some? ==> Answers(b, g, sc, a.value.tables, y, n, q)
    ensures Answers(InOrder(a, b), f && g, sc, t, Both(x, y), m + n, Max(r, q))
  {
    hide RoomFor, TablesWith;
    if a.Some? {
      RoomForBoth(sc, t, x, a.value.tables, y);
      if b.Some? { LenAppend(a.value.code, b.value.code); }
    } else if f && g && RoomFor(sc, t, Both(x, y)) {
      RoomForFirst(sc, t, x, y);
    }
  }

  lemma AnswersBehind(p: Option<Piece>, code: seq<Instr>, f: bool, sc: Scope, t: Tables, x: Refs, m: nat, r: nat)
    requires Answers(p, f, sc, t, x, m, r)
    ensures Answers(Behind(p, code), f, sc, t, x, m + Len(code), r)
  {
    hide RoomFor, TablesWith;
    if p.Some? { LenAppend(p.value.code, code); }
  }

  lemma AnswersGrown(p: Option<Piece>, f: bool, sc: Scope, t: Tables, k: nat, x: Refs, m: nat, r: nat)
    requires Answers(p, f, sc, Grow(t, k), x, m, r)
    ensures Answers(p, f, sc, t, x, m, Max(k, r))
  {
  }

  lemma AnswersGuarded(p: Option<Piece>, c: bool, f: bool, sc: Scope, t: Tables, x: Refs, m: nat, r: nat)
    requires c ==> Answers(p, f, sc, t, x, m, r)
    ensures Answers(if c then p else None, c && f, sc, t, x, m, r)
  {
  }

  // ---- leaves -------------------------------------------------------------------------

  lemma SameTables(code: seq<Instr>, sc: Scope, t: Tables)
    requires Small(t)
    ensures Answers(Some(Piece(code, t)), true, sc, t, NOTHING, Len(code), 0)
  {
    FilledOne(t.consts, Void);
    FilledOne(t.ups, 0);
    hide LengthWith, Filled, Len;
  }

  lemma LoadAnswers(dst: nat, v: Value, sc: Scope, t: Tables)
    requires Small(t)
    ensures Answers(Load(dst, v, t), true, sc, t, if v.Other? then Refs({v}, {}) else NOTHING, if v.Other? then 4 else 2, 0)
  {
    var p := Load(dst, v, t);
    if v.Other? {
      LoadConstAnswers(dst, v, sc, t);
    } else {
      hide Answers;
      LenOne(p.value.code[0]);
      SameTables(p.value.code, sc, t);
    }
  }

  lemma LoadConstAnswers(dst: nat, v: Value, sc: Scope, t: Tables)
    requires Small(t) && v.Other?
    ensures Answers(Load(dst, v, t), true, sc, t, Refs({v}, {}), 4, 0)
  {
    ConstAdded(t, v);
    FilledOne(t.ups, 0);
    hide LengthWith, Filled, Len, AddConst;
    var p := Load(dst, v, t);
    if p.Some? { LenOne(p.value.code[0]); }
  }

  lemma ConstAdded(t: Tables, v: Value)
    requires Small(t)
    ensures var (i, u) := AddConst(t, v);
            && (i >= 0 <==> LengthWith(t.consts, {v}) <= MAX_CONSTS)
            && (i >= 0 ==> Filled(t.consts, {v}, u.consts) && u.ups == t.ups && u.maxRegs == t.maxRegs)
  {
    FilledOne(t.consts, v);
    hide LengthWith, Filled;
  }

  lemma LenOne(i: Instr)
    ensures Len([i]) == Size(i) && Len([]) == 0
  {
    assert [i][..0] == [];
  }

  lemma LenTwo(i: Instr, j: Instr)
    ensures Len([i, j]) == Size(i) + Size(j)
  {
    assert [i, j][..1] == [i];
    LenOne(i);
  }

  lemma BothNothing(x: Refs)
    ensures Both(x, NOTHING) == x
  {
    assert x.consts + {} == x.consts && x.ups + {} == x.ups;
  }

  lemma ResolvedIff(locals: seq<Name>, x: Name)
    ensures ResolveLocal(locals, x) >= 0 <==> x in locals
    ensures ResolveLocal(locals, x) >= 0 ==> locals[ResolveLocal(locals, x)] == x
  {
    if locals != [] && locals[|locals| - 1] != x {
      ResolvedIff(locals[..|locals| - 1], x);
    }
  }

  lemma VarAnswers(x: Name, sc: Scope, t: Tables, dst: nat)
    requires Small(t)
    ensures Answers(GenVar(x, sc, t, dst), true, sc, t, NameRefs(sc.locals, x), 3, 0)
  {
    ResolvedIff(sc.locals, x);
    FilledOne(t.ups, x);
    FilledOne(t.consts, Void);
    hide LengthWith, Filled, Len, ResolveLocal;
    var p := GenVar(x, sc, t, dst);
    if p.Some? { LenOne(p.value.code[0]); }
  }

  lemma StoreAnswers(x: Name, sc: Scope, t: Tables, dst: nat, src: nat)
    requires Small(t)
    ensures Answers(GenStore(x, sc, t, dst, src), true, sc, t, NameRefs(sc.locals, x), 6, 0)
  {
    ResolvedIff(sc.locals, x);
    FilledOne(t.ups, x);
    FilledOne(t.consts, Void);
    hide LengthWith, Filled, Len, ResolveLocal;
    var p := GenStore(x, sc, t, dst, src);
    if p.Some? { LenTwo(p.value.code[0], p.value.code[1]); }
  }

  // ---- every form ------------------------------------------------------------------------

  /** Compilation succeeds exactly for what compiles; then the code is as long as told,
      the tables got what they lacked, and the frame has the registers needed. */
  lemma {:induction false} GenSucceedsIff(e: Expr, sc: Scope, t: Tables, dst: nat, next: nat)
    requires Small(t)
    ensures Answers(Gen(e, sc, t, dst, next), Fine(e, |sc.locals|, dst, next), sc, t, RefsIn(e, sc.locals),
                    CodeSize(e, |sc.locals|, dst, next), Registers(e, |sc.locals|, next))
    decreases e, 1
  {
    hide Answers, Load, GenVar, GenSet, GenIf, GenBegin, GenUntil, GenApply;
    match e
    case Const(v) => LoadAnswers(dst, v, sc, t);
    case Var(x) => VarAnswers(x, sc, t, dst);
    case SetVar(_, _) => SetAnswers(e, sc, t, dst, next);
    case If(_, _, _) => IfAnswers(e, sc, t, dst, next);
    case Begin(es) =>
      if es.Nil? { LoadAnswers(dst, Void, sc, t); } else { BeginAnswers(es, sc, t, dst, next); }
    case And(es) =>
      if es.Nil? {
        LoadAnswers(dst, True, sc, t);
      } else {
        UntilAnswers(es, false, sc, t, dst, next);
        BoundedUntil(e, es, false, sc, t, dst, next);
      }
    case Or(es) =>
      if es.Nil? {
        LoadAnswers(dst, False, sc, t);
      } else {
        UntilAnswers(es, true, sc, t, dst, next);
        BoundedUntil(e, es, true, sc, t, dst, next);
      }
    case Apply(_, _) => ApplyAnswers(e, sc, t, dst, next);
  }

  lemma BoundedUntil(e: Expr, es: Exprs, stop: bool, sc: Scope, t: Tables, dst: nat, next: nat)
    requires e == (if stop then Or(es) else And(es)) && es.Cons?
    requires Answers(GenUntil(es, stop, sc, t, dst, next), FineUntil(es, |sc.locals|, dst, next), sc, t,
                     RefsInAll(es, sc.locals), UntilSize(es, |sc.locals|, dst, next),
                     RegistersOf(es, |sc.locals|, next))
    ensures Answers(Gen(e, sc, t, dst, next), Fine(e, |sc.locals|, dst, next), sc, t, RefsIn(e, sc.locals),
                    CodeSize(e, |sc.locals|, dst, next), Registers(e, |sc.locals|, next))
  {
    hide Answers;
    AnswersGuarded(GenUntil(es, stop, sc, t, dst, next), Count(es) <= MAX_JUMPS + 1, FineUntil(es, |sc.locals|, dst, next), sc, t,
                   RefsInAll(es, sc.locals), UntilSize(es, |sc.locals|, dst, next),
                   RegistersOf(es, |sc.locals|, next));
  }

  lemma {:induction false} SetAnswers(e: Expr, sc: Scope, t: Tables, dst: nat, next: nat)
    requires e.SetVar? && Small(t)
    ensures Answers(GenSet(e, sc, t, dst, next), Fine(e, |sc.locals|, dst, next), sc, t, RefsIn(e, sc.locals),
                    CodeSize(e, |sc.locals|, dst, next), Registers(e, |sc.locals|, next))
    decreases e, 0
  {
    hide Answers, GenStore, Gen;
    var n, r := |sc.locals|, Temps(sc, next);
    var u := Grow(t, r + 1);
    var a := Gen(e.e, sc, u, r, r + 1);
    GenSucceedsIff(e.e, sc, u, r, r + 1);
    var f, m, q, x := Fine(e.e, n, r, r + 1), CodeSize(e.e, n, r, r + 1), Registers(e.e, n, r + 1), RefsIn(e.e, sc.locals);
    var b := if a.Some? then GenStore(e.x, sc, a.value.tables, dst, r) else None;
    if a.Some? {
      StaysSmall(a, f, sc, u, x, m, q);
      StoreAnswers(e.x, sc, a.value.tables, dst, r);
    }
    AnswersInOrder(a, b, f, true, sc, u, x, NameRefs(sc.locals, e.x), m, 6, q, 0);
    AnswersGrown(InOrder(a, b), f, sc, t, r + 1, RefsIn(e, sc.locals), m + 6, q);
    AnswersGuarded(InOrder(a, b), r < REG_LIMIT, f, sc, t, RefsIn(e, sc.locals), m + 6, Max(r + 1, q));
  }

  /** The parts of an if, in order, without the limits on its jumps. */
  lemma {:induction false} IfAnswers(e: Expr, sc: Scope, t: Tables, dst: nat, next: nat)
    requires e.If? && Small(t)
    ensures Answers(GenIf(e, sc, t, dst, next), Fine(e, |sc.locals|, dst, next), sc, t, RefsIn(e, sc.locals),
                    CodeSize(e, |sc.locals|, dst, next), Registers(e, |sc.locals|, next))
    decreases e, 0
  {
    hide Answers, Load, Gen, JoinIf;
    var If(test, consequent, rest) := e;
    var n, r := |sc.locals|, Temps(sc, next);
    var u := Grow(t, r + 1);
    var a := Gen(test, sc, u, r, r + 1);
    GenSucceedsIff(test, sc, u, r, r + 1);
    var b := if a.Some? then Gen(consequent, sc, a.value.tables, dst, r) else None;
    if a.Some? {
      StaysSmall(a, Fine(test, n, r, r + 1), sc, u, RefsIn(test, sc.locals), CodeSize(test, n, r, r + 1), Registers(test, n, r + 1));
      GenSucceedsIff(consequent, sc, a.value.tables, dst, r);
    }
    var c := if b.Some? then Alternate(rest, sc, b.value.tables, dst, r) else None;
    if b.Some? {
      StaysSmall(b, Fine(consequent, n, dst, r), sc, a.value.tables, RefsIn(consequent, sc.locals),
                 CodeSize(consequent, n, dst, r), Registers(consequent, n, r));
      AlternateAnswers(rest, sc, b.value.tables, dst, r);
    }
    IfParts(e, sc, t, dst, next, r, a, b, c);
  }

  function Alternate(rest: Exprs, sc: Scope, t: Tables, dst: nat, r: nat): Option<Piece> {
    if rest.Cons? then Gen(rest.head, sc, t, dst, r) else Load(dst, False, t)
  }

  predicate FineAlternate(rest: Exprs, n: nat, dst: nat, r: nat) {
    rest.Cons? ==> Fine(rest.head, n, dst, r)
  }

  function AlternateRefs(rest: Exprs, locals: seq<Name>): Refs {
    if rest.Cons? then RefsIn(rest.head, locals) else NOTHING
  }

  function AlternateRegisters(rest: Exprs, n: nat, r: nat): nat {
    if rest.Cons? then Registers(rest.head, n, r) else 0
  }

  lemma {:induction false} AlternateAnswers(rest: Exprs, sc: Scope, t: Tables, dst: nat, r: nat)
    requires Small(t)
    ensures Answers(Alternate(rest, sc, t, dst, r), FineAlternate(rest, |sc.locals|, dst, r), sc, t,
                    AlternateRefs(rest, sc.locals), AlternateSize(rest, |sc.locals|, dst, r), AlternateRegisters(rest, |sc.locals|, r))
    decreases rest, 0
  {
    hide Answers, Load, Gen;
    if rest.Cons? {
      GenSucceedsIff(rest.head, sc, t, dst, r);
    } else {
      LoadAnswers(dst, False, sc, t);
    }
  }

  // Three pieces and the two jumps between them.
  lemma IfCombines(a: Option<Piece>, b: Option<Piece>, c: Option<Piece>, f: bool, g: bool, h: bool, sc: Scope, t: Tables,
                   x: Refs, y: Refs, z: Refs, i: nat, j: nat, k: nat, v: nat, w: nat, q: nat, r: nat, few: bool)
    requires (a.None? ==> b.None?) && (b.None? ==> c.None?)
    requires Answers(a, f, sc, Grow(t, r + 1), x, i, v)
    requires a.Some? ==> Answers(b, g, sc, a.value.tables, y, j, w)
    requires b.Some? ==> Answers(c, h, sc, b.value.tables, z, k, q)
    ensures Answers(if r < REG_LIMIT && few then JoinAll(r, a, b, c) else None,
                    r < REG_LIMIT && few && f && g && h && j + 3 <= MAX_OFFSET && k <= MAX_OFFSET,
                    sc, t, Both(x, Both(y, z)), i + (j + k) + 7, Max(r + 1, Max(v, Max(w, q))))
  {
    hide Answers, JoinAll;
    if a.Some? {
      AnswersInOrder(b, c, g, h, sc, a.value.tables, y, z, j, k, w, q);
      LengthOf(b, g, sc, a.value.tables, y, j, w);
      if b.Some? { LengthOf(c, h, sc, b.value.tables, z, k, q); }
    }
    var all, m, regs := Both(x, Both(y, z)), i + (j + k), Max(v, Max(w, q));
    AnswersInOrder(a, InOrder(b, c), f, g && h, sc, Grow(t, r + 1), x, Both(y, z), i, j + k, v, Max(w, q));
    AnswersGrown(InOrder(a, InOrder(b, c)), f && (g && h), sc, t, r + 1, all, m, regs);
    JoinAnswers(a, b, c, f && (g && h), sc, t, all, m, Max(r + 1, regs), r, j, k);
    AnswersGuarded(JoinAll(r, a, b, c), r < REG_LIMIT && few, f && (g && h) && j + 3 <= MAX_OFFSET && k <= MAX_OFFSET,
                   sc, t, all, m + 7, Max(r + 1, regs));
  }

  lemma IfParts(e: Expr, sc: Scope, t: Tables, dst: nat, next: nat, r: nat, a: Option<Piece>, b: Option<Piece>, c: Option<Piece>)
    requires e.If? && r == Temps(sc, next)
    requires a == Gen(e.test, sc, Grow(t, r + 1), r, r + 1)
    requires b == if a.Some? then Gen(e.consequent, sc, a.value.tables, dst, r) else None
    requires c == if b.Some? then Alternate(e.rest, sc, b.value.tables, dst, r) else None
    requires Answers(a, Fine(e.test, |sc.locals|, r, r + 1), sc, Grow(t, r + 1), RefsIn(e.test, sc.locals),
                     CodeSize(e.test, |sc.locals|, r, r + 1), Registers(e.test, |sc.locals|, r + 1))
    requires a.Some? ==> Answers(b, Fine(e.consequent, |sc.locals|, dst, r), sc, a.value.tables, RefsIn(e.consequent, sc.locals),
                                 CodeSize(e.consequent, |sc.locals|, dst, r), Registers(e.consequent, |sc.locals|, r))
    requires b.Some? ==> Answers(c, FineAlternate(e.rest, |sc.locals|, dst, r), sc, b.value.tables, AlternateRefs(e.rest, sc.locals),
                                 AlternateSize(e.rest, |sc.locals|, dst, r), AlternateRegisters(e.rest, |sc.locals|, r))
    ensures Answers(GenIf(e, sc, t, dst, next), Fine(e, |sc.locals|, dst, next), sc, t, RefsIn(e, sc.locals),
                    CodeSize(e, |sc.locals|, dst, next), Registers(e, |sc.locals|, next))
  {
    var n := |sc.locals|;
    GenIfIs(e, sc, t, dst, next, a, b, c);
    IfFine(e, n, dst, next, r, sc.locals);
    hide Fine, Gen, Load, RefsIn, CodeSize, Registers, Alternate, FineAlternate, AlternateRefs, AlternateSize, AlternateRegisters,
         Answers, GenIf, JoinAll, Grow, Temps, Both, Count;
    IfCombines(a, b, c, Fine(e.test, n, r, r + 1), Fine(e.consequent, n, dst, r), FineAlternate(e.rest, n, dst, r), sc, t,
               RefsIn(e.test, sc.locals), RefsIn(e.consequent, sc.locals), AlternateRefs(e.rest, sc.locals),
               CodeSize(e.test, n, r, r + 1), CodeSize(e.consequent, n, dst, r), AlternateSize(e.rest, n, dst, r),
               Registers(e.test, n, r + 1), Registers(e.consequent, n, r), AlternateRegisters(e.rest, n, r), r, Count(e.rest) <= 1);
    if Count(e.rest) > 1 { NoneAnswers(sc, t, RefsIn(e, sc.locals), CodeSize(e, n, dst, next), Registers(e, n, next)); }
  }

  lemma NoneAnswers(sc: Scope, t: Tables, x: Refs, m: nat, q: nat)
    ensures Answers(None, false, sc, t, x, m, q)
  {
  }

  lemma LengthOf(p: Option<Piece>, f: bool, sc: Scope, t: Tables, x: Refs, m: nat, q: nat)
    requires p.Some? ==> Answers(p, f, sc, t, x, m, q)
    ensures p.Some? ==> Len(p.value.code) == m
  {
  }

  function JoinAll(r: nat, a: Option<Piece>, b: Option<Piece>, c: Option<Piece>): Option<Piece> {
    if a.None? || b.None? || c.None? then None else JoinIf(r, a.value, b.value, c.value)
  }

  lemma JoinAnswers(a: Option<Piece>, b: Option<Piece>, c: Option<Piece>, f: bool, sc: Scope, t: Tables, x: Refs,
                    m: nat, q: nat, r: nat, j: nat, k: nat)
    requires Answers(InOrder(a, InOrder(b, c)), f, sc, t, x, m, q)
    requires (b.Some? ==> Len(b.value.code) == j) && (c.Some? ==> Len(c.value.code) == k)
    ensures Answers(JoinAll(r, a, b, c), f && j + 3 <= MAX_OFFSET && k <= MAX_OFFSET, sc, t, x, m + 7, q)
  {
    hide RoomFor, TablesWith;
    if a.Some? && b.Some? && c.Some? {
      JoinLength(r, a.value.code, b.value.code, c.value.code);
    }
  }

  lemma JoinLength(r: nat, a: seq<Instr>, b: seq<Instr>, c: seq<Instr>)
    ensures Len(a + [JumpFalse(r, Len(b) + 3)] + b + [Jump(Len(c))] + c) == Len(a + (b + c)) + 7
  {
    var i, j := JumpFalse(r, Len(b) + 3), Jump(Len(c));
    LenOne(i);
    LenOne(j);
    hide Len;
    LenAppend(a, b + c);
    LenAppend(b, c);
    LenAppend(a, [i]);
    LenAppend(a + [i], b);
    LenAppend(a + [i] + b, [j]);
    LenAppend(a + [i] + b + [j], c);
  }

  lemma GenIfIs(e: Expr, sc: Scope, t: Tables, dst: nat, next: nat, a: Option<Piece>, b: Option<Piece>, c: Option<Piece>)
    requires e.If?
    requires var n, r := |sc.locals|, Temps(sc, next);
             && a == Gen(e.test, sc, Grow(t, r + 1), r, r + 1)
             && b == (if a.Some? then Gen(e.consequent, sc, a.value.tables, dst, r) else None)
             && c == (if b.Some? then Alternate(e.rest, sc, b.value.tables, dst, r) else None)
    ensures var r := Temps(sc, next);
            GenIf(e, sc, t, dst, next) == if r < REG_LIMIT && Count(e.rest) <= 1 then JoinAll(r, a, b, c) else None
  {
    hide Gen, Load, JoinIf;
  }

  lemma OneAlternate(rest: Exprs, n: nat, dst: nat, r: nat, locals: seq<Name>)
    requires Count(rest) <= 1
    ensures FineAlternate(rest, n, dst, r) <==> AllWellFormed(rest) && RegistersOf(rest, n, r) <= REG_LIMIT && AllReach(rest, n, dst, r)
    ensures RegistersOf(rest, n, r) == AlternateRegisters(rest, n, r) && RefsInAll(rest, locals) == AlternateRefs(rest, locals)
  {
    hide WellFormed, Registers, JumpsReach, RefsIn;
    if rest.Cons? {
      assert AllWellFormed(rest.tail) && AllReach(rest.tail, n, dst, r) && RegistersOf(rest.tail, n, r) == 0;
      BothNothing(RefsIn(rest.head, locals));
    }
  }

  // What an if asks for, from what its parts ask for.
  lemma IfFine(e: Expr, n: nat, dst: nat, next: nat, r: nat, locals: seq<Name>)
    requires e.If? && r == Max(n, next)
    ensures Fine(e, n, dst, next) <==>
            && r < REG_LIMIT && Count(e.rest) <= 1
            && Fine(e.test, n, r, r + 1) && Fine(e.consequent, n, dst, r) && FineAlternate(e.rest, n, dst, r)
            && CodeSize(e.consequent, n, dst, r) + 3 <= MAX_OFFSET && AlternateSize(e.rest, n, dst, r) <= MAX_OFFSET
    ensures CodeSize(e, n, dst, next)
            == CodeSize(e.test, n, r, r + 1) + (CodeSize(e.consequent, n, dst, r) + AlternateSize(e.rest, n, dst, r)) + 7
    ensures Count(e.rest) <= 1 ==>
              RefsIn(e, locals) == Both(RefsIn(e.test, locals), Both(RefsIn(e.consequent, locals), AlternateRefs(e.rest, locals)))
    ensures Count(e.rest) <= 1 ==>
              Registers(e, n, next)
              == Max(r + 1, Max(Registers(e.test, n, r + 1), Max(Registers(e.consequent, n, r), AlternateRegisters(e.rest, n, r))))
  {
    if Count(e.rest) <= 1 { OneAlternate(e.rest, n, dst, r, locals); }
    hide FineAlternate, AlternateRegisters, AlternateRefs, AlternateSize, AllReach, AllWellFormed, RegistersOf, RefsInAll, Count, Both;
  }

  // ---- several expressions ----------------------------------------------------------

  predicate FineAll(es: Exprs, n: nat, dst: nat, next: nat) {
    AllWellFormed(es) && RegistersOf(es, n, next) <= REG_LIMIT && AllReach(es, n, dst, next)
  }

  predicate FineUntil(es: Exprs, n: nat, dst: nat, next: nat) {
    FineAll(es, n, dst, next) && OperandsReach(es, n, dst, next)
  }

  predicate FineEach(es: Exprs, n: nat, reg: nat, next: nat) {
    AllWellFormed(es) && RegistersOf(es, n, next) <= REG_LIMIT && EachReaches(es, n, reg, next)
  }

  lemma {:induction false} BeginAnswers(es: Exprs, sc: Scope, t: Tables, dst: nat, next: nat)
    requires es.Cons? && Small(t)
    ensures Answers(GenBegin(es, sc, t, dst, next), FineAll(es, |sc.locals|, dst, next), sc, t, RefsInAll(es, sc.locals),
                    InTurn(es, |sc.locals|, dst, next), RegistersOf(es, |sc.locals|, next))
    decreases es, 0
  {
    BeginIs(es, sc, t, dst, next);
    hide Answers, Gen, GenBegin, Fine, FineAll, RefsIn, RefsInAll, CodeSize, InTurn, Registers, RegistersOf, InOrder, Both;
    var n := |sc.locals|;
    var a := Gen(es.head, sc, t, dst, next);
    var f, x, m, q := Fine(es.head, n, dst, next), RefsIn(es.head, sc.locals), CodeSize(es.head, n, dst, next), Registers(es.head, n, next);
    GenSucceedsIff(es.head, sc, t, dst, next);
    if es.tail.Cons? {
      var b := if a.Some? then GenBegin(es.tail, sc, a.value.tables, dst, next) else None;
      if a.Some? {
        StaysSmall(a, f, sc, t, x, m, q);
        BeginAnswers(es.tail, sc, a.value.tables, dst, next);
      }
      AnswersInOrder(a, b, f, FineAll(es.tail, n, dst, next), sc, t, x, RefsInAll(es.tail, sc.locals),
                     m, InTurn(es.tail, n, dst, next), q, RegistersOf(es.tail, n, next));
    }
  }

  lemma BeginIs(es: Exprs, sc: Scope, t: Tables, dst: nat, next: nat)
    requires es.Cons?
    ensures var n, a := |sc.locals|, Gen(es.head, sc, t, dst, next);
            if es.tail.Nil? then
              && GenBegin(es, sc, t, dst, next) == a && (FineAll(es, n, dst, next) <==> Fine(es.head, n, dst, next))
              && RefsInAll(es, sc.locals) == RefsIn(es.head, sc.locals)
              && InTurn(es, n, dst, next) == CodeSize(es.head, n, dst, next)
              && RegistersOf(es, n, next) == Registers(es.head, n, next)
            else
              && GenBegin(es, sc, t, dst, next)
                 == InOrder(a, if a.Some? then GenBegin(es.tail, sc, a.value.tables, dst, next) else None)
              && (FineAll(es, n, dst, next) <==> Fine(es.head, n, dst, next) && FineAll(es.tail, n, dst, next))
              && RefsInAll(es, sc.locals) == Both(RefsIn(es.head, sc.locals), RefsInAll(es.tail, sc.locals))
              && InTurn(es, n, dst, next) == CodeSize(es.head, n, dst, next) + InTurn(es.tail, n, dst, next)
              && RegistersOf(es, n, next) == Max(Registers(es.head, n, next), RegistersOf(es.tail, n, next))
  {
    hide Gen, WellFormed, Registers, JumpsReach, RefsIn, CodeSize;
    BothNothing(RefsIn(es.head, sc.locals));
    if es.tail.Nil? {
      assert AllWellFormed(es.tail) && AllReach(es.tail, |sc.locals|, dst, next) && RegistersOf(es.tail, |sc.locals|, next) == 0;
    }
  }

  /** An operand, the jump behind it, and the operands that follow. */
  function UntilJoin(stop: bool, dst: nat, a: Option<Piece>, b: Option<Piece>): Option<Piece> {
    if a.None? || b.None? || Len(b.value.code) > MAX_OFFSET then None
    else Some(Piece(a.value.code + [JumpIf(stop, dst, Len(b.value.code))] + b.value.code, b.value.tables))
  }

  function UntilSize(es: Exprs, n: nat, dst: nat, next: nat): nat
    requires es.Cons?
  {
    InTurn(es, n, dst, next) + 4 * (Count(es) - 1)
  }

  lemma {:induction false} UntilAnswers(es: Exprs, stop: bool, sc: Scope, t: Tables, dst: nat, next: nat)
    requires es.Cons? && Small(t)
    ensures Answers(GenUntil(es, stop, sc, t, dst, next), FineUntil(es, |sc.locals|, dst, next), sc, t, RefsInAll(es, sc.locals),
                    UntilSize(es, |sc.locals|, dst, next), RegistersOf(es, |sc.locals|, next))
    decreases es, 0
  {
    UntilIs(es, stop, sc, t, dst, next);
    hide Answers, Gen, GenUntil, Fine, FineUntil, RefsIn, RefsInAll, CodeSize, UntilSize, Registers, RegistersOf, InOrder, UntilJoin, Both;
    var n := |sc.locals|;
    var a := Gen(es.head, sc, t, dst, next);
    var f, x, m, q := Fine(es.head, n, dst, next), RefsIn(es.head, sc.locals), CodeSize(es.head, n, dst, next), Registers(es.head, n, next);
    GenSucceedsIff(es.head, sc, t, dst, next);
    if es.tail.Cons? {
      var b := if a.Some? then GenUntil(es.tail, stop, sc, a.value.tables, dst, next) else None;
      var g, y, k, w := FineUntil(es.tail, n, dst, next), RefsInAll(es.tail, sc.locals),
                        UntilSize(es.tail, n, dst, next), RegistersOf(es.tail, n, next);
      if a.Some? {
        StaysSmall(a, f, sc, t, x, m, q);
        UntilAnswers(es.tail, stop, sc, a.value.tables, dst, next);
        LengthOf(b, g, sc, a.value.tables, y, k, w);
      }
      AnswersInOrder(a, b, f, g, sc, t, x, y, m, k, q, w);
      UntilJoins(a, b, f && g, sc, t, Both(x, y), m + k, Max(q, w), stop, dst, k);
    }
  }

  lemma UntilJoins(a: Option<Piece>, b: Option<Piece>, f: bool, sc: Scope, t: Tables, x: Refs, m: nat, q: nat,
                   stop: bool, dst: nat, k: nat)
    requires Answers(InOrder(a, b), f, sc, t, x, m, q) && (b.Some? ==> Len(b.value.code) == k)
    ensures Answers(UntilJoin(stop, dst, a, b), f && k <= MAX_OFFSET, sc, t, x, m + 4, q)
  {
    hide RoomFor, TablesWith;
    if a.Some? && b.Some? {
      var j := JumpIf(stop, dst, Len(b.value.code));
      LenOne(j);
      LenAppend(a.value.code, b.value.code);
      LenAppend(a.value.code, [j]);
      LenAppend(a.value.code + [j], b.value.code);
    }
  }

  lemma UntilIs(es: Exprs, stop: bool, sc: Scope, t: Tables, dst: nat, next: nat)
    requires es.Cons?
    ensures var n, a := |sc.locals|, Gen(es.head, sc, t, dst, next);
            if es.tail.Nil? then
              && GenUntil(es, stop, sc, t, dst, next) == a && (FineUntil(es, n, dst, next) <==> Fine(es.head, n, dst, next))
              && RefsInAll(es, sc.locals) == RefsIn(es.head, sc.locals)
              && UntilSize(es, n, dst, next) == CodeSize(es.head, n, dst, next)
              && RegistersOf(es, n, next) == Registers(es.head, n, next)
            else
              && GenUntil(es, stop, sc, t, dst, next)
                 == UntilJoin(stop, dst, a, if a.Some? then GenUntil(es.tail, stop, sc, a.value.tables, dst, next) else None)
              && (FineUntil(es, n, dst, next) <==>
                  Fine(es.head, n, dst, next) && FineUntil(es.tail, n, dst, next) && UntilSize(es.tail, n, dst, next) <= MAX_OFFSET)
              && RefsInAll(es, sc.locals) == Both(RefsIn(es.head, sc.locals), RefsInAll(es.tail, sc.locals))
              && UntilSize(es, n, dst, next) == CodeSize(es.head, n, dst, next) + UntilSize(es.tail, n, dst, next) + 4
              && RegistersOf(es, n, next) == Max(Registers(es.head, n, next), RegistersOf(es.tail, n, next))
  {
    hide Gen, WellFormed, Registers, JumpsReach, RefsIn, CodeSize, JumpIf, Len;
    BothNothing(RefsIn(es.head, sc.locals));
    if es.tail.Nil? {
      assert Count(es.tail) == 0 && InTurn(es.tail, |sc.locals|, dst, next) == 0;
      assert AllWellFormed(es.tail) && AllReach(es.tail, |sc.locals|, dst, next) && RegistersOf(es.tail, |sc.locals|, next) == 0;
    } else {
      OperandsShrink(es, |sc.locals|, dst, next);
    }
  }

  /** The way over all operands but the first is the longest. */
  lemma {:induction false} OperandsShrink(es: Exprs, n: nat, dst: nat, next: nat)
    requires es.Cons? && es.tail.Cons?
    ensures OperandsReach(es, n, dst, next) ==> OperandsReach(es.tail, n, dst, next)
  {
    hide CodeSize;
  }

  lemma {:induction false} EachAnswers(es: Exprs, sc: Scope, t: Tables, reg: nat, next: nat)
    requires Small(t)
    ensures Answers(GenEach(es, sc, t, reg, next), FineEach(es, |sc.locals|, reg, next), sc, t, RefsInAll(es, sc.locals),
                    SideBySide(es, |sc.locals|, reg, next), RegistersOf(es, |sc.locals|, next))
    decreases es, 0
  {
    hide Gen, Answers;
    if es.Nil? {
      NothingAnswers(sc, t);
    } else {
      EachIs(es, sc, t, reg, next);
      hide Fine, RefsIn, CodeSize, Registers, GenEach, FineEach, RefsInAll, SideBySide, RegistersOf, InOrder, Both;
      var n := |sc.locals|;
      var a := Gen(es.head, sc, t, reg, next);
      var f, x, m, q := Fine(es.head, n, reg, next), RefsIn(es.head, sc.locals), CodeSize(es.head, n, reg, next), Registers(es.head, n, next);
      GenSucceedsIff(es.head, sc, t, reg, next);
      var b := if a.Some? then GenEach(es.tail, sc, a.value.tables, reg + 1, next) else None;
      if a.Some? {
        StaysSmall(a, f, sc, t, x, m, q);
        EachAnswers(es.tail, sc, a.value.tables, reg + 1, next);
      }
      AnswersInOrder(a, b, f, FineEach(es.tail, n, reg + 1, next), sc, t, x, RefsInAll(es.tail, sc.locals),
                     m, SideBySide(es.tail, n, reg + 1, next), q, RegistersOf(es.tail, n, next));
    }
  }

  lemma EachIs(es: Exprs, sc: Scope, t: Tables, reg: nat, next: nat)
    requires es.Cons?
    ensures var n, a := |sc.locals|, Gen(es.head, sc, t, reg, next);
            && GenEach(es, sc, t, reg, next)
               == InOrder(a, if a.Some? then GenEach(es.tail, sc, a.value.tables, reg + 1, next) else None)
            && (FineEach(es, n, reg, next) <==> Fine(es.head, n, reg, next) && FineEach(es.tail, n, reg + 1, next))
            && RefsInAll(es, sc.locals) == Both(RefsIn(es.head, sc.locals), RefsInAll(es.tail, sc.locals))
            && SideBySide(es, n, reg, next) == CodeSize(es.head, n, reg, next) + SideBySide(es.tail, n, reg + 1, next)
            && RegistersOf(es, n, next) == Max(Registers(es.head, n, next), RegistersOf(es.tail, n, next))
  {
    hide Gen, WellFormed, Registers, JumpsReach, RefsIn, CodeSize;
  }

  lemma NothingAnswers(sc: Scope, t: Tables)
    requires Small(t)
    ensures Answers(Some(Piece([], t)), true, sc, t, NOTHING, 0, 0)
  {
    FilledOne(t.consts, Void);
    FilledOne(t.ups, 0);
  }

  // Two pieces and the call behind them.
  lemma ApplyCombines(a: Option<Piece>, b: Option<Piece>, f: bool, g: bool, sc: Scope, t: Tables, x: Refs, y: Refs,
                      m: nat, k: nat, q: nat, w: nat, top: nat, ok: bool, call: seq<Instr>)
    requires Answers(a, f, sc, Grow(t, top), x, m, q)
    requires a.Some? ==> Answers(b, g, sc, a.value.tables, y, k, w)
    ensures Answers(if ok then Behind(InOrder(a, b), call) else None, ok && (f && g), sc, t, Both(x, y), m + k + Len(call),
                    Max(top, Max(q, w)))
  {
    hide Answers, Behind, InOrder, Grow, Both, Len;
    AnswersInOrder(a, b, f, g, sc, Grow(t, top), x, y, m, k, q, w);
    AnswersGrown(InOrder(a, b), f && g, sc, t, top, Both(x, y), m + k, Max(q, w));
    AnswersBehind(InOrder(a, b), call, f && g, sc, t, Both(x, y), m + k, Max(top, Max(q, w)));
    AnswersGuarded(Behind(InOrder(a, b), call), ok, f && g, sc, t, Both(x, y), m + k + Len(call), Max(top, Max(q, w)));
  }

  lemma {:induction false} ApplyAnswers(e: Expr, sc: Scope, t: Tables, dst: nat, next: nat)
    requires e.Apply? && Small(t)
    ensures Answers(GenApply(e, sc, t, dst, next), Fine(e, |sc.locals|, dst, next), sc, t, RefsIn(e, sc.locals),
                    CodeSize(e, |sc.locals|, dst, next), Registers(e, |sc.locals|, next))
    decreases e, 0
  {
    hide Answers, Gen, GenEach, Behind, InOrder, GenApply, Fine, FineEach, Len, RefsIn, RefsInAll, CodeSize, SideBySide, Registers, RegistersOf;
    var n, r, args := |sc.locals|, Temps(sc, next), e.args;
    var top := r + Count(args) + 1;
    var a := Gen(e.f, sc, Grow(t, top), r, top);
    GenSucceedsIff(e.f, sc, Grow(t, top), r, top);
    var b := if a.Some? then GenEach(args, sc, a.value.tables, r + 1, top) else None;
    if a.Some? {
      StaysSmall(a, Fine(e.f, n, r, top), sc, Grow(t, top), RefsIn(e.f, sc.locals), CodeSize(e.f, n, r, top), Registers(e.f, n, top));
      EachAnswers(args, sc, a.value.tables, r + 1, top);
    }
    var call := [Call(r, Count(args))] + if dst != r then [Move(dst, r)] else [];
    CallLength(r, Count(args), dst);
    ApplyCombines(a, b, Fine(e.f, n, r, top), FineEach(args, n, r + 1, top), sc, t, RefsIn(e.f, sc.locals), RefsInAll(args, sc.locals),
                  CodeSize(e.f, n, r, top), SideBySide(args, n, r + 1, top), Registers(e.f, n, top), RegistersOf(args, n, top),
                  top, Count(args) <= MAX_ARGS && top <= REG_LIMIT, call);
    ApplyIs(e, sc, t, dst, next, a, b, call);
    ApplyFine(e, n, dst, next, r, top, sc.locals);
  }

  lemma ApplyFine(e: Expr, n: nat, dst: nat, next: nat, r: nat, top: nat, locals: seq<Name>)
    requires e.Apply? && r == Max(n, next) && top == r + Count(e.args) + 1
    ensures Fine(e, n, dst, next) <==>
            Count(e.args) <= MAX_ARGS && top <= REG_LIMIT && Fine(e.f, n, r, top) && FineEach(e.args, n, r + 1, top)
    ensures CodeSize(e, n, dst, next)
            == CodeSize(e.f, n, r, top) + SideBySide(e.args, n, r + 1, top) + if dst == r then 3 else 6
    ensures RefsIn(e, locals) == Both(RefsIn(e.f, locals), RefsInAll(e.args, locals))
    ensures Registers(e, n, next) == Max(top, Max(Registers(e.f, n, top), RegistersOf(e.args, n, top)))
  {
    ApplyForms(e, n, dst, next, r, top);
    hide WellFormed, JumpsReach, Registers, EachReaches, AllWellFormed, RegistersOf, RefsInAll, Count, Both;
  }

  lemma ApplyForms(e: Expr, n: nat, dst: nat, next: nat, r: nat, top: nat)
    requires e.Apply? && r == Max(n, next) && top == r + Count(e.args) + 1
    ensures WellFormed(e) <==> Count(e.args) <= MAX_ARGS && WellFormed(e.f) && AllWellFormed(e.args)
    ensures JumpsReach(e, n, dst, next) <==> JumpsReach(e.f, n, r, top) && EachReaches(e.args, n, r + 1, top)
    ensures Registers(e, n, next) == Max(top, Max(Registers(e.f, n, top), RegistersOf(e.args, n, top)))
  {
    hide EachReaches, AllWellFormed, RegistersOf, Count, Max;
  }

  lemma CallLength(r: nat, n: nat, dst: nat)
    ensures Len([Call(r, n)] + if dst != r then [Move(dst, r)] else []) == if dst == r then 3 else 6
  {
    LenOne(Call(r, n));
    LenTwo(Call(r, n), Move(dst, r));
    assert [Call(r, n)] + [] == [Call(r, n)];
    assert [Call(r, n)] + [Move(dst, r)] == [Call(r, n), Move(dst, r)];
  }

  lemma ApplyIs(e: Expr, sc: Scope, t: Tables, dst: nat, next: nat, a: Option<Piece>, b: Option<Piece>, call: seq<Instr>)
    requires e.Apply?
    requires var r, n := Temps(sc, next), Count(e.args);
             && a == Gen(e.f, sc, Grow(t, r + n + 1), r, r + n + 1)
             && b == (if a.Some? then GenEach(e.args, sc, a.value.tables, r + 1, r + n + 1) else None)
             && call == [Call(r, n)] + if dst != r then [Move(dst, r)] else []
    ensures var r, n := Temps(sc, next), Count(e.args);
            GenApply(e, sc, t, dst, next) == if n <= MAX_ARGS && r + n + 1 <= REG_LIMIT then Behind(InOrder(a, b), call) else None
  {
    hide Gen, GenEach;
    var r, n := Temps(sc, next), Count(e.args);
    if a.Some? && b.Some? {
      var code := a.value.code + b.value.code;
      assert code + [Call(r, n)] + (if dst != r then [Move(dst, r)] else []) == code + call;
    }
  }

  /** The compiler gives code exactly for what compiles. */
  lemma CompilesIff(e: Expr, sc: Scope, t: Tables, dst: nat, next: nat)
    requires TablesOk(sc, t)
    ensures Gen(e, sc, t, dst, next).Some? <==> Compiles(e, sc, t, dst, next)
  {
    GenSucceedsIff(e, sc, t, dst, next);
    hide Gen;
  }
}
