/** Expressions as lists, the tree the compiler lowers them to, and the
    expression it emits back from the tree. */
module IrForms {

  datatype Option<T> = None | Some(value: T)

  // A symbol carries its name; interned symbols have tag 0, others are told apart by it.
  datatype Value = Void | Nil | Sym(name: string, tag: nat) | Atom(bits: nat) | Pair(car: Value, cdr: Value)

  datatype Prim = Add | Sub | Mul | Lt | Gt | NumEq | Le | Ge | Not

  datatype Keyword = Quote | If | Begin | Lambda | SetForm | Define | DefineSyntax | And | Or | Derived | Plain

  datatype Node =
    | VoidNode
    | Literal(v: Value)
    | Quoted(v: Value)
    | Var(symbol: Value)
    | IfNode(test: Node, consequent: Node, alternate: Option<Node>)
    | LambdaNode(params: Value, body: seq<Node>)
    | SeqNode(items: seq<Node>)
    | CallNode(callee: Node, args: seq<Node>)
    | SetNode(name: Value, value: Node)
    | DefineNode(target: Value, value: Node)
    | AndNode(items: seq<Node>)
    | OrNode(items: seq<Node>)
    | PrimNode(prim: Prim, symbol: Value, args: seq<Node>)
    | Raw(form: Value)

  const BOUND_MAX := 256

  // ---- names ----

  const HYGIENE_PREFIX := "__hyg_"

  predicate IsRenamed(name: string) {
    HYGIENE_PREFIX <= name
  }

  function SkipDigits(s: string): string {
    if s != [] && '0' <= s[0] <= '9' then SkipDigits(s[1..]) else s
  }

  /** The name under a hygiene mark: __hyg_12_if stands for if. */
  function Basename(name: string): string {
    if !IsRenamed(name) then name
    else
      var rest := SkipDigits(name[|HYGIENE_PREFIX|..]);
      if |rest| >= 2 && rest[0] == '_' then rest[1..] else name
  }

  function KeywordName(k: Keyword): string {
    match k
    case Quote => "quote"
    case If => "if"
    case Begin => "begin"
    case Lambda => "lambda"
    case SetForm => "set!"
    case Define => "define"
    case DefineSyntax => "define-syntax"
    case And => "and"
    case Or => "or"
    case Derived => ""
    case Plain => ""
  }

  const DERIVED: seq<string> := [
    "quasiquote", "let", "let*", "letrec", "letrec*", "cond", "case", "when", "unless", "do",
    "guard", "parameterize", "case-lambda", "delay", "delay-force", "let-values", "let*-values",
    "define-values", "define-library", "include", "include-ci", "cond-expand", "let-syntax",
    "letrec-syntax", "define-property"]

  function KeywordOf(base: string): Keyword {
    if base == "quote" then Quote
    else if base == "if" then If
    else if base == "begin" then Begin
    else if base == "lambda" then Lambda
    else if base == "set!" then SetForm
    else if base == "define" then Define
    else if base == "define-syntax" then DefineSyntax
    else if base == "and" then And
    else if base == "or" then Or
    else if base in DERIVED then Derived
    else Plain
  }

  function PrimOf(base: string): Option<Prim> {
    if base == "+" then Some(Add)
    else if base == "-" then Some(Sub)
    else if base == "*" then Some(Mul)
    else if base == "<" then Some(Lt)
    else if base == ">" then Some(Gt)
    else if base == "=" then Some(NumEq)
    else if base == "<=" then Some(Le)
    else if base == ">=" then Some(Ge)
    else if base == "not" then Some(Not)
    else None
  }

  // What the emitter writes for a primitive that has no symbol.
  function PrimName(p: Prim): string {
    match p
    case Add => "+"
    case Sub => "-"
    case Mul => "*"
    case Lt => "<"
    case Gt => ">"
    case NumEq => "="
    case Le => "<="
    case Ge => ">="
    case Not => "not"
  }

  // The parameter names of the lambdas around an expression, innermost first.
  type Scope = seq<seq<string>>

  predicate Binds(scope: Scope, name: string) {
    exists i :: 0 <= i < |scope| && name in scope[i]
  }

  predicate Shadowed(head: Value, scope: Scope) {
    head.Sym? && !IsRenamed(head.name) && Binds(scope, head.name)
  }

  function HeadKeyword(head: Value, scope: Scope): Keyword {
    if head.Sym? && !Shadowed(head, scope) then KeywordOf(Basename(head.name)) else Plain
  }

  // ---- lists ----

  predicate Proper(list: Value) {
    list.Nil? || (list.Pair? && Proper(list.cdr))
  }

  function Length(list: Value): nat {
    if list.Pair? then 1 + Length(list.cdr) else 0
  }

  function ListOf(items: seq<Value>): (list: Value)
    ensures Proper(list) && Length(list) == |items|
  {
    if items == [] then Nil else Pair(items[0], ListOf(items[1..]))
  }

  /** The names a lambda binds, or none when a parameter is no symbol or there are too many. */
  function ParamNames(params: Value): (r: Option<seq<string>>)
  {
    match params
    case Pair(p, rest) =>
      if !p.Sym? then None
      else
        var names := ParamNames(rest);
        if names.None? || |names.value| >= BOUND_MAX then None else Some([p.name] + names.value)
    case Sym(n, _) => Some([n])
    case Nil => Some([])
    case _ => None
  }

  // ---- lowering ----

  function Lower(e: Value, scope: Scope): Node
    decreases e, 1
  {
    if e.Void? then VoidNode
    else if e.Sym? then Var(e)
    else if !e.Pair? then Literal(e)
    else
      var args := e.cdr;
      match HeadKeyword(e.car, scope)
      case Quote =>
        if !args.Pair? || !args.cdr.Nil? then Raw(e) else Quoted(args.car)
      case If => LowerIf(e, scope)
      case Begin => (match LowerAll(args, scope) case None => Raw(e) case Some(ns) => SeqNode(ns))
      case Lambda => LowerLambda(e, scope)
      case SetForm =>
        if !args.Pair? || !args.cdr.Pair? || !args.cdr.cdr.Nil? || !args.car.Sym? then Raw(e)
        else SetNode(args.car, Lower(args.cdr.car, scope))
      case Define =>
        if !args.Pair? || !args.car.Sym? || !args.cdr.Pair? || !args.cdr.cdr.Nil? then Raw(e)
        else DefineNode(args.car, Lower(args.cdr.car, scope))
      case DefineSyntax => Raw(e)
      case And => (match LowerAll(args, scope) case None => Raw(e) case Some(ns) => AndNode(ns))
      case Or => (match LowerAll(args, scope) case None => Raw(e) case Some(ns) => OrNode(ns))
      case Derived => Raw(e)
      case Plain => LowerCall(e, scope)
  }

  function LowerIf(e: Value, scope: Scope): Node
    requires e.Pair?
    decreases e, 0
  {
    var args := e.cdr;
    if !args.Pair? || !args.cdr.Pair? then Raw(e)
    else
      var rest := args.cdr.cdr;
      if rest.Pair? then
        if !rest.cdr.Nil? then Raw(e)
        else IfNode(Lower(args.car, scope), Lower(args.cdr.car, scope), Some(Lower(rest.car, scope)))
      else if !rest.Nil? then Raw(e)
      else IfNode(Lower(args.car, scope), Lower(args.cdr.car, scope), None)
  }

  function LowerLambda(e: Value, scope: Scope): Node
    requires e.Pair?
    decreases e, 0
  {
    var args := e.cdr;
    if !args.Pair? || !args.cdr.Pair? then Raw(e)
    else
      var names := ParamNames(args.car);
      if names.None? then Raw(e)
      else match LowerAll(args.cdr, [names.value] + scope)
           case None => Raw(e)
           case Some(ns) => LambdaNode(args.car, ns)
  }

  function LowerCall(e: Value, scope: Scope): Node
    requires e.Pair?
    decreases e, 0
  {
    match LowerAll(e.cdr, scope)
    case None => Raw(e)
    case Some(ns) =>
      var prim := if e.car.Sym? && !Shadowed(e.car, scope) then PrimOf(Basename(e.car.name)) else None;
      if prim.Some? then PrimNode(prim.value, e.car, ns)
      else CallNode(Lower(e.car, scope), ns)
  }

  /** The items of a list, or nothing when it is not a proper one. */
  function LowerAll(list: Value, scope: Scope): Option<seq<Node>>
    decreases list, 0
  {
    match list
    case Nil => Some([])
    case Pair(e, rest) =>
      (match LowerAll(rest, scope)
       case None => None
       case Some(ns) => Some([Lower(e, scope)] + ns))
    case _ => None
  }

  // ---- emitting ----

  function KeywordForm(k: Keyword, args: seq<Value>): Value {
    Pair(Sym(KeywordName(k), 0), ListOf(args))
  }

  function Emit(n: Node): Value {
    match n
    case VoidNode => Void
    case Literal(v) => v
    case Quoted(v) => KeywordForm(Quote, [v])
    case Var(s) => s
    case IfNode(t, c, None) => KeywordForm(If, [Emit(t), Emit(c)])
    case IfNode(t, c, Some(a)) => KeywordForm(If, [Emit(t), Emit(c), Emit(a)])
    case LambdaNode(params, body) => KeywordForm(Lambda, [params] + EmitAll(body))
    case SeqNode(items) => if items == [] then Void else KeywordForm(Begin, EmitAll(items))
    case CallNode(callee, args) => Pair(Emit(callee), ListOf(EmitAll(args)))
    case SetNode(name, value) => KeywordForm(SetForm, [name, Emit(value)])
    case DefineNode(target, value) => KeywordForm(Define, [target, Emit(value)])
    case AndNode(items) => KeywordForm(And, EmitAll(items))
    case OrNode(items) => KeywordForm(Or, EmitAll(items))
    case PrimNode(_, symbol, args) => Pair(symbol, ListOf(EmitAll(args)))
    case Raw(form) => form
  }

  function EmitAll(ns: seq<Node>): (vs: seq<Value>)
    ensures |vs| == |ns|
  {
    if ns == [] then [] else [Emit(ns[0])] + EmitAll(ns[1..])
  }
}
