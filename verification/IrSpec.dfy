/** The compiler's expression tree and what it means. */
module IrSpec {

  datatype Option<T> = None | Some(value: T)

  datatype Prim = Add | Sub | Mul | Lt | Gt | NumEq | Le | Ge | Not

  /** A symbol: its base name, and the mark hygiene may have added. */
  datatype Name = Name(base: nat, mark: nat)

  datatype Value = Void | True | False | Int(n: int) | Builtin(p: Prim) | Other(id: nat)

  /** Everything evaluation may change. */
  type World = nat

  datatype Outcome = Ok(v: Value) | Raise(error: nat)

  /** A node, with the constant the analysis knows it to be. */
  datatype Node = Node(known: Option<Value>, kind: Kind)

  datatype Kind =
    | VoidNode
    | Literal(v: Value)
    | Quote(v: Value)
    | Var(x: Name)
    | If(test: Node, consequent: Node, alternate: Option<Node>)
    | Lambda(params: nat, body: Nodes)
    | Seq(items: Nodes)
    | Call(callee: Node, args: Nodes)
    | Set(x: Name, value: Node)
    | Define(x: Name, value: Node)
    | DefineSyntax
    | And(items: Nodes)
    | Or(items: Nodes)
    | PrimCall(prim: Prim, symbol: Name, args: Nodes)
    | Raw(form: nat)

  datatype Nodes = Nil | Cons(head: Node, tail: Nodes)

  /** What is outside the tree: variables, calls, closures, and forms the tree
      keeps as they are, with the base name such a form defines or assigns. */
  datatype Interp = Interp(
    lookup: (Name, World) -> Outcome,
    assign: (Name, Value, World) -> (Outcome, World),
    define: (Name, Value, World) -> (Outcome, World),
    call: (Value, seq<Value>, World) -> (Outcome, World),
    raw: (nat, World) -> (Outcome, World),
    rawTarget: nat -> Option<nat>,
    closure: (nat, Nodes) -> Value)

  // ---- the primitives -------------------------------------------------------

  const NOT_A_NUMBER := 1
  const WRONG_ARITY := 2

  predicate AllInts(vs: seq<Value>) {
    forall i :: 0 <= i < |vs| ==> vs[i].Int?
  }

  function Sum(vs: seq<Value>): int
    requires AllInts(vs)
  {
    if vs == [] then 0 else Sum(vs[..|vs| - 1]) + vs[|vs| - 1].n
  }

  function Product(vs: seq<Value>): int
    requires AllInts(vs)
  {
    if vs == [] then 1 else Product(vs[..|vs| - 1]) * vs[|vs| - 1].n
  }

  function Bool(b: bool): Value {
    if b then True else False
  }

  predicate Related(p: Prim, a: int, b: int) {
    match p
    case Lt => a < b
    case Gt => a > b
    case Le => a <= b
    case Ge => a >= b
    case _ => a == b
  }

  /** Neighbours are compared up to the first pair that is not in order. */
  function Ordered(p: Prim, vs: seq<Value>): Outcome {
    if |vs| <= 1 then Ok(True)
    else if !vs[0].Int? || !vs[1].Int? then Raise(NOT_A_NUMBER)
    else if !Related(p, vs[0].n, vs[1].n) then Ok(False)
    else Ordered(p, vs[1..])
  }

  /** Every number is compared with the first. */
  function AllEqual(first: Value, vs: seq<Value>): Outcome {
    if vs == [] then Ok(True)
    else if !first.Int? || !vs[0].Int? then Raise(NOT_A_NUMBER)
    else if first.n != vs[0].n then Ok(False)
    else AllEqual(first, vs[1..])
  }

  /** What the runtime's own primitives return. */
  function BuiltinResult(p: Prim, vs: seq<Value>): Outcome {
    match p
    case Add => if AllInts(vs) then Ok(Int(Sum(vs))) else Raise(NOT_A_NUMBER)
    case Mul => if AllInts(vs) then Ok(Int(Product(vs))) else Raise(NOT_A_NUMBER)
    case Sub =>
      if vs == [] then Raise(WRONG_ARITY)
      else if !AllInts(vs) then Raise(NOT_A_NUMBER)
      else if |vs| == 1 then Ok(Int(-vs[0].n))
      else Ok(Int(vs[0].n - Sum(vs[1..])))
    case NumEq => if vs == [] then Ok(True) else AllEqual(vs[0], vs[1..])
    case Not => if |vs| != 1 then Raise(WRONG_ARITY) else Ok(Bool(vs[0] == False))
    case _ => Ordered(p, vs)
  }

  // ---- meaning --------------------------------------------------------------

  /** The value of a node, or the error it ends in, and the world it leaves. */
  function Eval(n: Node, I: Interp, w: World): (Outcome, World)
    decreases n, 0
  {
    match n.kind
    case VoidNode => (Ok(Void), w)
    case Literal(v) => (Ok(v), w)
    case Quote(v) => (Ok(v), w)
    case Var(x) => (I.lookup(x, w), w)
    case If(test, consequent, alternate) =>
      var (t, u) := Eval(test, I, w);
      if t.Raise? then (t, u)
      else if t.v != False then Eval(consequent, I, u)
      else if alternate.Some? then Eval(alternate.value, I, u)
      else (Ok(False), u)
    case Lambda(params, body) => (Ok(I.closure(params, body)), w)
    case Seq(items) => EvalSeq(items, I, w, Void)
    case Call(callee, args) =>
      var (f, u) := Eval(callee, I, w);
      if f.Raise? then (f, u) else EvalCall(f.v, args, I, u)
    case Set(x, value) =>
      var (v, u) := Eval(value, I, w);
      if v.Raise? then (v, u) else I.assign(x, v.v, u)
    case Define(x, value) =>
      var (v, u) := Eval(value, I, w);
      if v.Raise? then (v, u) else I.define(x, v.v, u)
    case DefineSyntax => (Ok(Void), w)
    case And(items) => EvalUntil(items, false, I, w)
    case Or(items) => EvalUntil(items, true, I, w)
    case PrimCall(_, symbol, args) =>
      var f := I.lookup(symbol, w);
      if f.Raise? then (f, w) else EvalCall(f.v, args, I, w)
    case Raw(form) => I.raw(form, w)
  }

  function EvalSeq(ns: Nodes, I: Interp, w: World, last: Value): (Outcome, World)
    decreases ns, 0
  {
    if ns.Nil? then (Ok(last), w) else
      var (v, u) := Eval(ns.head, I, w);
      if v.Raise? then (v, u) else EvalSeq(ns.tail, I, u, v.v)
  }

  function EvalUntil(ns: Nodes, stop: bool, I: Interp, w: World): (Outcome, World)
    decreases ns, 0
  {
    if ns.Nil? then (Ok(Bool(!stop)), w) else
      var (v, u) := Eval(ns.head, I, w);
      if v.Raise? || ns.tail.Nil? || (v.v != False) == stop then (v, u) else EvalUntil(ns.tail, stop, I, u)
  }

  datatype Args = Values(vs: seq<Value>) | Failed(error: nat)

  function EvalArgs(ns: Nodes, I: Interp, w: World): (Args, World)
    decreases ns, 0
  {
    if ns.Nil? then (Values([]), w) else
      var (v, u) := Eval(ns.head, I, w);
      if v.Raise? then (Failed(v.error), u) else
        var (rest, x) := EvalArgs(ns.tail, I, u);
        (if rest.Failed? then rest else Values([v.v] + rest.vs), x)
  }

  function EvalCall(f: Value, args: Nodes, I: Interp, w: World): (Outcome, World)
    decreases args, 1
  {
    var (vs, u) := EvalArgs(args, I, w);
    if vs.Failed? then (Raise(vs.error), u) else I.call(f, vs.vs, u)
  }

  /** A closure is known by what its body does. */
  ghost predicate Extensional(I: Interp) {
    forall params, b, c ::
      (forall w: World, last :: EvalSeq(b, I, w, last) == EvalSeq(c, I, w, last)) ==> I.closure(params, b) == I.closure(params, c)
  }

  /** The two nodes mean the same whatever the world. */
  ghost predicate Same(m: Node, n: Node, I: Interp) {
    forall w: World :: Eval(m, I, w) == Eval(n, I, w)
  }

  ghost predicate SameAll(ms: Nodes, ns: Nodes, I: Interp) {
    if ms.Nil? || ns.Nil? then ms.Nil? && ns.Nil? else Same(ms.head, ns.head, I) && SameAll(ms.tail, ns.tail, I)
  }

  // ---- constants ------------------------------------------------------------

  /** The node evaluates to the value without effects. */
  ghost predicate IsConstant(n: Node, v: Value, I: Interp) {
    forall w: World :: Eval(n, I, w) == (Ok(v), w)
  }

  /** What the nodes are known to be, they are. */
  ghost predicate Sound(n: Node, I: Interp)
    decreases n
  {
    && (n.known.Some? ==> IsConstant(n, n.known.value, I))
    && match n.kind
       case If(test, consequent, alternate) =>
         Sound(test, I) && Sound(consequent, I) && (alternate.Some? ==> Sound(alternate.value, I))
       case Lambda(_, body) => AllSound(body, I)
       case Seq(items) => AllSound(items, I)
       case Call(callee, args) => Sound(callee, I) && AllSound(args, I)
       case Set(_, value) => Sound(value, I)
       case Define(_, value) => Sound(value, I)
       case And(items) => AllSound(items, I)
       case Or(items) => AllSound(items, I)
       case PrimCall(_, _, args) => AllSound(args, I)
       case _ => true
  }

  ghost predicate AllSound(ns: Nodes, I: Interp)
    decreases ns
  {
    ns.Cons? ==> Sound(ns.head, I) && AllSound(ns.tail, I)
  }
}
