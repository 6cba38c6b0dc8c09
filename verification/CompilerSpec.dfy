/** Expressions, what they mean, and the register code generated for them. */
module CompilerSpec {
  import opened Bytecode

  type Name = nat

  datatype Expr =
    | Const(v: Value)
    | Var(x: Name)
    | SetVar(x: Name, e: Expr)
    | If(test: Expr, consequent: Expr, rest: Exprs)
    | Begin(es: Exprs)
    | And(es: Exprs)
    | Or(es: Exprs)
    | Apply(f: Expr, args: Exprs)

  datatype Exprs = Nil | Cons(head: Expr, tail: Exprs)

  function Count(es: Exprs): nat {
    if es.Nil? then 0 else 1 + Count(es.tail)
  }

  /** Names of the function's own registers, innermost binding last, and the
      names its enclosing functions bind. */
  datatype Scope = Scope(locals: seq<Name>, outer: set<Name>)

  /** The last local of the name, -1 for none. */
  function ResolveLocal(locals: seq<Name>, x: Name): (i: int)
    ensures -1 <= i < |locals|
  {
    if locals == [] then -1
    else if locals[|locals| - 1] == x then |locals| - 1
    else ResolveLocal(locals[..|locals| - 1], x)
  }

  // ---- meaning ------------------------------------------------------------

  datatype Store = Store(locals: seq<Value>, ups: map<Name, Value>, world: World)

  function Lookup(sc: Scope, s: Store, x: Name): Value {
    var i := ResolveLocal(sc.locals, x);
    if 0 <= i < |s.locals| then s.locals[i] else if x in s.ups then s.ups[x] else Void
  }

  function Assign(sc: Scope, s: Store, x: Name, v: Value): Store {
    var i := ResolveLocal(sc.locals, x);
    if 0 <= i < |s.locals| then s.(locals := s.locals[i := v]) else s.(ups := s.ups[x := v])
  }

  /** The value of an expression and the store it leaves; operands are evaluated
      from left to right, the operator first. */
  function Eval(e: Expr, sc: Scope, callee: Callee, s: Store): (Value, Store)
    decreases e
  {
    match e
    case Const(v) => (v, s)
    case Var(x) => (Lookup(sc, s, x), s)
    case SetVar(x, e0) => var (v, t) := Eval(e0, sc, callee, s); (v, Assign(sc, t, x, v))
    case If(test, consequent, rest) =>
      var (v, t) := Eval(test, sc, callee, s);
      if v != False then Eval(consequent, sc, callee, t)
      else if rest.Cons? then Eval(rest.head, sc, callee, t)
      else (False, t)
    case Begin(es) => EvalLast(es, sc, callee, s, Void)
    case And(es) => EvalUntil(es, false, sc, callee, s)
    case Or(es) => EvalUntil(es, true, sc, callee, s)
    case Apply(f, args) =>
      var (g, t) := Eval(f, sc, callee, s);
      var (vs, u) := EvalEach(args, sc, callee, t);
      var (v, w) := callee(g, vs, u.world);
      (v, u.(world := w))
  }

  function EvalLast(es: Exprs, sc: Scope, callee: Callee, s: Store, last: Value): (Value, Store)
    decreases es
  {
    if es.Nil? then (last, s) else
      var (v, t) := Eval(es.head, sc, callee, s);
      EvalLast(es.tail, sc, callee, t, v)
  }

  /** and, or: up to the first false value, or the first true one. */
  function EvalUntil(es: Exprs, stop: bool, sc: Scope, callee: Callee, s: Store): (Value, Store)
    decreases es
  {
    if es.Nil? then (if stop then False else True, s) else
      var (v, t) := Eval(es.head, sc, callee, s);
      if es.tail.Nil? || (v != False) == stop then (v, t) else EvalUntil(es.tail, stop, sc, callee, t)
  }

  function EvalEach(es: Exprs, sc: Scope, callee: Callee, s: Store): (seq<Value>, Store)
    decreases es
  {
    if es.Nil? then ([], s) else
      var (v, t) := Eval(es.head, sc, callee, s);
      var (vs, u) := EvalEach(es.tail, sc, callee, t);
      ([v] + vs, u)
  }

  // ---- tables -------------------------------------------------------------

  const MAX_CONSTS := 512
  const MAX_UPVALUES := 64
  const REG_LIMIT := 250
  const MAX_JUMPS := 64
  const MAX_ARGS := 200
  const MAX_OFFSET := 32767

  datatype Tables = Tables(consts: seq<Value>, ups: seq<Name>, maxRegs: nat)

  function IndexOf<T(==)>(xs: seq<T>, x: T): (i: int)
    ensures -1 <= i < |xs|
    ensures i >= 0 ==> xs[i] == x
    ensures i < 0 ==> x !in xs
  {
    if xs == [] then -1
    else
      var i := IndexOf(xs[..|xs| - 1], x);
      if i >= 0 then i else if xs[|xs| - 1] == x then |xs| - 1 else -1
  }

  /** A constant keeps the place it has; -1 when the table is full. */
  function AddConst(t: Tables, v: Value): (int, Tables) {
    var i := IndexOf(t.consts, v);
    if i >= 0 then (i, t)
    else if |t.consts| >= MAX_CONSTS then (-1, t)
    else (|t.consts|, t.(consts := t.consts + [v]))
  }

  /** The place of an outer name among the captured ones, new if need be. */
  function ResolveUp(sc: Scope, t: Tables, x: Name): (int, Tables) {
    var i := IndexOf(t.ups, x);
    if x !in sc.outer then (-1, t)
    else if i >= 0 then (i, t)
    else if |t.ups| >= MAX_UPVALUES then (-1, t)
    else (|t.ups|, t.(ups := t.ups + [x]))
  }

  function Grow(t: Tables, n: nat): Tables {
    if n > t.maxRegs then t.(maxRegs := n) else t
  }

  function Temps(sc: Scope, next: nat): nat {
    if next < |sc.locals| then |sc.locals| else next
  }

  // ---- code ---------------------------------------------------------------

  datatype Piece = Piece(code: seq<Instr>, tables: Tables)

  function Load(dst: nat, v: Value, t: Tables): Option<Piece> {
    match v
    case Void => Some(Piece([LoadVoid(dst)], t))
    case True => Some(Piece([LoadTrue(dst)], t))
    case False => Some(Piece([LoadFalse(dst)], t))
    case Null => Some(Piece([LoadNil(dst)], t))
    case Other(_) =>
      var (i, u) := AddConst(t, v);
      if i < 0 then None else Some(Piece([LoadConst(dst, i)], u))
  }

  function GenVar(x: Name, sc: Scope, t: Tables, dst: nat): Option<Piece> {
    var i := ResolveLocal(sc.locals, x);
    if i >= 0 then Some(Piece([Move(dst, i)], t))
    else
      var (j, u) := ResolveUp(sc, t, x);
      if j < 0 then None else Some(Piece([GetUpvalue(dst, j)], u))
  }

  function GenStore(x: Name, sc: Scope, t: Tables, dst: nat, src: nat): Option<Piece> {
    var i := ResolveLocal(sc.locals, x);
    if i >= 0 then Some(Piece([Move(i, src), Move(dst, src)], t))
    else
      var (j, u) := ResolveUp(sc, t, x);
      if j < 0 then None else Some(Piece([SetUpvalue(j, src), Move(dst, src)], u))
  }

  /** The code that leaves the value in `dst`, with registers from `next` on free.
      None when a table, the registers or a jump run out, or a name is neither
      local nor captured. */
  function Gen(e: Expr, sc: Scope, t: Tables, dst: nat, next: nat): Option<Piece>
    decreases e, 1
  {
    match e
    case Const(v) => Load(dst, v, t)
    case Var(x) => GenVar(x, sc, t, dst)
    case SetVar(_, _) => GenSet(e, sc, t, dst, next)
    case If(_, _, _) => GenIf(e, sc, t, dst, next)
    case Begin(es) => if es.Nil? then Load(dst, Void, t) else GenBegin(es, sc, t, dst, next)
    case And(es) =>
      if es.Nil? then Load(dst, True, t)
      else if Count(es) > MAX_JUMPS + 1 then None
      else GenUntil(es, false, sc, t, dst, next)
    case Or(es) =>
      if es.Nil? then Load(dst, False, t)
      else if Count(es) > MAX_JUMPS + 1 then None
      else GenUntil(es, true, sc, t, dst, next)
    case Apply(_, _) => GenApply(e, sc, t, dst, next)
  }

  function GenSet(e: Expr, sc: Scope, t: Tables, dst: nat, next: nat): Option<Piece>
    requires e.SetVar?
    decreases e, 0
  {
    var r := Temps(sc, next);
    if r >= REG_LIMIT then None else
      match Gen(e.e, sc, Grow(t, r + 1), r, r + 1)
      case None => None
      case Some(a) =>
        match GenStore(e.x, sc, a.tables, dst, r)
        case None => None
        case Some(b) => Some(Piece(a.code + b.code, b.tables))
  }

  function GenIf(e: Expr, sc: Scope, t: Tables, dst: nat, next: nat): Option<Piece>
    requires e.If?
    decreases e, 0
  {
    var If(test, consequent, rest) := e;
    var r := Temps(sc, next);
    if (rest.Cons? && rest.tail.Cons?) || r >= REG_LIMIT then None else
      match Gen(test, sc, Grow(t, r + 1), r, r + 1)
      case None => None
      case Some(a) =>
        match Gen(consequent, sc, a.tables, dst, r)
        case None => None
        case Some(b) =>
          match if rest.Cons? then Gen(rest.head, sc, b.tables, dst, r) else Load(dst, False, b.tables)
          case None => None
          case Some(c) => JoinIf(r, a, b, c)
  }

  /** Test, jump over the consequent and its own jump, consequent, jump over the
      alternate, alternate. */
  function JoinIf(r: nat, a: Piece, b: Piece, c: Piece): Option<Piece> {
    if Len(b.code) + 3 > MAX_OFFSET || Len(c.code) > MAX_OFFSET then None
    else Some(Piece(a.code + [JumpFalse(r, Len(b.code) + 3)] + b.code + [Jump(Len(c.code))] + c.code, c.tables))
  }

  function GenBegin(es: Exprs, sc: Scope, t: Tables, dst: nat, next: nat): Option<Piece>
    requires es.Cons?
    decreases es, 1
  {
    match Gen(es.head, sc, t, dst, next)
    case None => None
    case Some(a) =>
      if es.tail.Nil? then Some(a) else
        match GenBegin(es.tail, sc, a.tables, dst, next)
        case None => None
        case Some(b) => Some(Piece(a.code + b.code, b.tables))
  }

  /** Every operand but the last is followed by a jump to the end. */
  function GenUntil(es: Exprs, stop: bool, sc: Scope, t: Tables, dst: nat, next: nat): Option<Piece>
    requires es.Cons?
    decreases es, 1
  {
    match Gen(es.head, sc, t, dst, next)
    case None => None
    case Some(a) =>
      if es.tail.Nil? then Some(a) else
        match GenUntil(es.tail, stop, sc, a.tables, dst, next)
        case None => None
        case Some(b) =>
          if Len(b.code) > MAX_OFFSET then None
          else Some(Piece(a.code + [JumpIf(stop, dst, Len(b.code))] + b.code, b.tables))
  }

  function JumpIf(stop: bool, test: nat, offset: int): Instr {
    if stop then JumpTrue(test, offset) else JumpFalse(test, offset)
  }

  function GenApply(e: Expr, sc: Scope, t: Tables, dst: nat, next: nat): Option<Piece>
    requires e.Apply?
    decreases e, 0
  {
    var Apply(f, args) := e;
    var r, n := Temps(sc, next), Count(args);
    if n > MAX_ARGS || r + n >= REG_LIMIT then None else
      match Gen(f, sc, Grow(t, r + n + 1), r, r + n + 1)
      case None => None
      case Some(a) =>
        match GenEach(args, sc, a.tables, r + 1, r + n + 1)
        case None => None
        case Some(b) =>
          Some(Piece(a.code + b.code + [Call(r, n)] + if dst != r then [Move(dst, r)] else [], b.tables))
  }

  /** One operand into each register from `reg` on. */
  function GenEach(es: Exprs, sc: Scope, t: Tables, reg: nat, next: nat): Option<Piece>
    decreases es, 1
  {
    if es.Nil? then Some(Piece([], t)) else
      match Gen(es.head, sc, t, reg, next)
      case None => None
      case Some(a) =>
        match GenEach(es.tail, sc, a.tables, reg + 1, next)
        case None => None
        case Some(b) => Some(Piece(a.code + b.code, b.tables))
  }
}
