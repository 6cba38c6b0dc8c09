/** syntax-rules patterns: what they match, what the matcher binds, and what a
    template makes of the bindings. */
module SyntaxRules {

  const BIND_MAX := 64
  const ELLIPSIS_MAX := 64

  datatype Option<T> = None | Some(value: T)

  /** Data of the language.  Symbols are compared by base name; `mark` stands for
      the renaming prefix that hygiene adds. */
  datatype Value = Nil | Sym(base: nat, mark: nat) | Atom(id: nat) | Pair(car: Value, cdr: Value) | Vec(items: seq<Value>)

  const ELLIPSIS := 0
  const UNDERSCORE := 1
  const QUOTE := 2
  const SYNTAX_RULES := 3

  // ---- lists --------------------------------------------------------------

  /** -1 for what is no proper list. */
  function ListLen(v: Value): (n: int)
    ensures n >= -1
  {
    match v
    case Nil => 0
    case Pair(_, d) => var n := ListLen(d); if n < 0 then -1 else n + 1
    case _ => -1
  }

  function Items(v: Value): seq<Value> {
    if v.Pair? then [v.car] + Items(v.cdr) else []
  }

  /** The tail after n pairs. */
  function Tail(v: Value, n: nat): Value {
    if n == 0 || !v.Pair? then v else Tail(v.cdr, n - 1)
  }

  function List(items: seq<Value>, end: Value): Value {
    if items == [] then end else Pair(items[0], List(items[1..], end))
  }

  function Nth(v: Value, n: nat): Value {
    if !v.Pair? then Nil else if n == 0 then v.car else Nth(v.cdr, n - 1)
  }

  function ReverseOnto(v: Value, end: Value): Value {
    if v.Pair? then ReverseOnto(v.cdr, Pair(v.car, end)) else end
  }

  function Reverse(v: Value): Value {
    ReverseOnto(v, Nil)
  }

  // ---- patterns -----------------------------------------------------------

  predicate IsEllipsis(v: Value) {
    v.Sym? && v.base == ELLIPSIS
  }

  /** An element followed by the ellipsis. */
  predicate Repeats(p: Value) {
    p.Pair? && p.cdr.Pair? && IsEllipsis(p.cdr.car)
  }

  predicate HeadOk(v: Value) {
    v.Sym? ==> v.base != QUOTE && v.base != SYNTAX_RULES
  }

  /** Patterns of pairs, dotted tails, variables, atoms and nested ellipses. */
  predicate Fragment(p: Value) {
    match p
    case Sym(base, _) => base != ELLIPSIS && base != UNDERSCORE
    case Vec(_) => false
    case Pair(a, d) => Fragment(a) && HeadOk(a) && if Repeats(p) then Fragment(d.cdr) else Fragment(d)
    case _ => true
  }

  ghost function Vars(p: Value): set<nat> {
    match p
    case Sym(base, _) => if base == ELLIPSIS || base == UNDERSCORE then {} else {base}
    case Pair(a, d) => Vars(a) + Vars(d)
    case _ => {}
  }

  /** How often the element before an ellipsis is repeated. */
  function RepCount(p: Value, u: Value): int
    requires Repeats(p)
  {
    ListLen(u) - ListLen(p.cdr.cdr)
  }

  /** Both ends of an ellipsis are lists, and the form is long enough. */
  predicate RepFits(p: Value, u: Value)
    requires Repeats(p)
  {
    ListLen(p.cdr.cdr) >= 0 && ListLen(u) >= 0 && RepCount(p, u) >= 0
  }

  /** The forms a pattern stands for.  `tail` says that the pattern ends a list:
      an atom there stands for nothing. */
  predicate Matches(p: Value, u: Value, tail: bool)
    requires Fragment(p)
  {
    match p
    case Sym(_, _) => true
    case Nil => u == Nil
    case Atom(_) => !tail && u == p
    case Pair(a, d) =>
      if Repeats(p) then
        && RepFits(p, u)
        && (forall i | 0 <= i < RepCount(p, u) && i < |Items(u)| :: Matches(a, Items(u)[i], false))
        && Matches(d.cdr, Tail(u, RepCount(p, u)), true)
      else
        u.Pair? && Matches(a, u.car, false) && Matches(d, u.cdr, true)
  }

  function Reps(p: Value, u: Value): (n: nat)
    requires Repeats(p)
    ensures n <= |Items(u)|
  {
    var n := RepCount(p, u);
    if n < 0 then 0 else if n > |Items(u)| then |Items(u)| else n
  }

  /** No variable is met twice: not in two parts that both take part in the
      match.  Within an element that is repeated no times nothing is met. */
  ghost predicate NoClash(p: Value, u: Value)
    requires Fragment(p)
  {
    p.Pair? ==>
      if Repeats(p) then
        && Vars(p.car) !! Vars(p.cdr.cdr)
        && (forall i | 0 <= i < Reps(p, u) :: NoClash(p.car, Items(u)[i]))
        && NoClash(p.cdr.cdr, Tail(u, Reps(p, u)))
      else
        Vars(p.car) !! Vars(p.cdr) && u.Pair? && NoClash(p.car, u.car) && NoClash(p.cdr, u.cdr)
  }

  /** What a variable of the pattern stands for: under n ellipses, an n-fold
      nested list. */
  ghost function Meaning(p: Value, u: Value, v: nat): Value
    requires Fragment(p)
  {
    match p
    case Sym(_, _) => u
    case Pair(a, d) =>
      if Repeats(p) then
        if v !in Vars(a) then Meaning(d.cdr, if RepCount(p, u) >= 0 then Tail(u, RepCount(p, u)) else u, v)
        else List(seq(Reps(p, u), i requires 0 <= i < Reps(p, u) => Meaning(a, Items(u)[i], v)), Nil)
      else if !u.Pair? then Nil
      else if v in Vars(a) then Meaning(a, u.car, v)
      else Meaning(d, u.cdr, v)
    case _ => Nil
  }

  ghost function Depth(p: Value, v: nat): nat
    requires Fragment(p)
  {
    match p
    case Pair(a, d) =>
      if Repeats(p) then if v in Vars(a) then Depth(a, v) + 1 else Depth(d.cdr, v)
      else if v in Vars(a) then Depth(a, v) else Depth(d, v)
    case _ => 0
  }

  // ---- bindings -----------------------------------------------------------

  /** `ellipsis` is 0 for a single form, and above it the depth of lists seen. */
  datatype Binding = Binding(base: nat, value: Value, ellipsis: nat)

  type Env = seq<Binding>

  function Find(env: Env, v: nat): Option<Binding> {
    if env == [] then None else if env[0].base == v then Some(env[0]) else Find(env[1..], v)
  }

  function BindVar(env: Env, v: nat, u: Value): Option<Env> {
    if Find(env, v).Some? || |env| >= BIND_MAX then None else Some(env + [Binding(v, u, 0)])
  }

  /** The variables of an element before an ellipsis, in order, at most BIND_MAX. */
  function Collect(p: Value, names: seq<nat>): seq<nat> {
    match p
    case Sym(base, _) =>
      if base == UNDERSCORE || base == ELLIPSIS || base in names || |names| >= BIND_MAX then names else names + [base]
    case Pair(a, d) => Collect(d, Collect(a, names))
    case _ => names
  }

  /** Every variable starts as the empty list. */
  function Prebind(env: Env, names: seq<nat>): Option<Env> {
    if names == [] then Some(env) else
      match Prebind(env, names[..|names| - 1])
      case None => None
      case Some(e) =>
        if |e| >= BIND_MAX || Find(e, names[|names| - 1]).Some? then None
        else Some(e + [Binding(names[|names| - 1], Nil, 1)])
  }

  /** One more match of the element goes in front of what its variables have. */
  function Gather(b: Binding, sub: Env): Binding {
    match Find(sub, b.base)
    case None => b
    case Some(x) =>
      Binding(b.base, Pair(x.value, b.value),
              if x.ellipsis > 0 && b.ellipsis < x.ellipsis + 1 then x.ellipsis + 1 else b.ellipsis)
  }

  function GatherAll(env: Env, base: nat, sub: Env): Env {
    seq(|env|, i requires 0 <= i < |env| => if i < base then env[i] else Gather(env[i], sub))
  }

  /** Back to the order of the form. */
  function Settle(env: Env, base: nat): Env {
    seq(|env|, i requires 0 <= i < |env| => 
      if i < base || env[i].ellipsis == 0 then env[i] else env[i].(value := Reverse(env[i].value)))
  }

  // ---- matching -----------------------------------------------------------

  function Match(p: Value, u: Value, tail: bool, env: Env): Option<Env>
    requires Fragment(p)
    decreases p, 0, 0
  {
    match p
    case Sym(base, _) => BindVar(env, base, u)
    case Nil => if u == Nil then Some(env) else None
    case Atom(_) => if !tail && u == p then Some(env) else None
    case Pair(a, d) =>
      if Repeats(p) then
        if !RepFits(p, u) then None else
        match Prebind(env, Collect(a, []))
        case None => None
        case Some(e) =>
          match MatchEach(a, Items(u)[..Reps(p, u)], e, |env|)
          case None => None
          case Some(f) => Match(d.cdr, Tail(u, Reps(p, u)), true, Settle(f, |env|))
      else if !u.Pair? then None
      else
        match Match(a, u.car, false, env)
        case None => None
        case Some(e) => Match(d, u.cdr, true, e)
  }

  /** Every item matches on its own; the bindings from `base` on collect. */
  function MatchEach(a: Value, items: seq<Value>, env: Env, base: nat): Option<Env>
    requires Fragment(a)
    decreases a, 1, |items|
  {
    if items == [] then Some(env) else
      match MatchEach(a, items[..|items| - 1], env, base)
      case None => None
      case Some(e) =>
        match Match(a, items[|items| - 1], false, [])
        case None => None
        case Some(sub) => Some(GatherAll(e, base, sub))
  }

  // ---- instantiating ------------------------------------------------------

  function DeepCopy(v: Value): Value {
    match v
    case Pair(a, d) => Pair(DeepCopy(a), DeepCopy(d))
    case Vec(items) => Vec(seq(|items|, i requires 0 <= i < |items| => DeepCopy(items[i])))
    case _ => v
  }

  /** How often a template element is repeated: by its longest list among the
      elements, -1 for none.  A dotted tail is not looked at. */
  function RepeatCount(t: Value, env: Env): int {
    match t
    case Sym(base, _) =>
      (match Find(env, base)
       case Some(b) => if b.ellipsis > 0 then ListLen(b.value) else -1
       case None => -1)
    case Pair(a, d) =>
      var n, m := RepeatCount(a, env), if d.Pair? then RepeatCount(d, env) else -1;
      if n > m then n else m
    case _ => -1
  }

  /** The bindings for the i-th repetition, one ellipsis down. */
  function Peel(env: Env, i: nat): Env {
    seq(|env|, k requires 0 <= k < |env| =>
      if env[k].ellipsis == 0 then env[k] else Binding(env[k].base, Nth(env[k].value, i), env[k].ellipsis - 1))
  }

  function Repetitions(t: Value, env: Env): nat {
    var n := RepeatCount(t, env);
    if n < 0 then 0 else if n > ELLIPSIS_MAX then ELLIPSIS_MAX else n
  }

  function Instantiate(t: Value, env: Env): Value
    requires Fragment(t)
  {
    match t
    case Sym(base, _) =>
      (match Find(env, base) case Some(b) => DeepCopy(b.value) case None => t)
    case Pair(a, d) =>
      if Repeats(t) then
        List(seq(Repetitions(a, env), i requires 0 <= i => Instantiate(a, Peel(env, i))), Instantiate(d.cdr, env))
      else
        Pair(Instantiate(a, env), Instantiate(d, env))
    case _ => t
  }
}
