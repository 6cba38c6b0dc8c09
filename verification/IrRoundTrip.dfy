/** What comes back when an expression is lowered and emitted again. */
module IrRoundTrip {
  import opened IrForms

  /** Which parts of an expression are expressions themselves, told from the list
      alone: none; none because it is (begin); or the items after the first
      `kept`, behind a keyword or with the head among them. */
  datatype Shape = Kept | EmptyBegin | Form(keyword: Option<Keyword>, kept: nat, scope: Scope)

  predicate Arity(args: Value, low: nat, high: nat) {
    Proper(args) && low <= Length(args) <= high
  }

  function ShapeOf(e: Value, scope: Scope): Shape {
    if !e.Pair? then Kept
    else
      var args := e.cdr;
      match HeadKeyword(e.car, scope)
      case Quote => if Arity(args, 1, 1) then Form(Some(Quote), 1, scope) else Kept
      case If => if Arity(args, 2, 3) then Form(Some(If), 0, scope) else Kept
      case Begin => if args.Nil? then EmptyBegin else if Proper(args) then Form(Some(Begin), 0, scope) else Kept
      case Lambda =>
        if Proper(args) && Length(args) >= 2 && ParamNames(args.car).Some?
        then Form(Some(Lambda), 1, [ParamNames(args.car).value] + scope)
        else Kept
      case SetForm => if Arity(args, 2, 2) && args.car.Sym? then Form(Some(SetForm), 1, scope) else Kept
      case Define => if Arity(args, 2, 2) && args.car.Sym? then Form(Some(Define), 1, scope) else Kept
      case And => if Proper(args) then Form(Some(And), 0, scope) else Kept
      case Or => if Proper(args) then Form(Some(Or), 0, scope) else Kept
      case DefineSyntax => Kept
      case Derived => Kept
      case Plain => if Proper(args) then Form(None, 0, scope) else Kept
  }

  /** The expression with its keyword heads spelled plainly and every (begin) gone to void. */
  function Normal(e: Value, scope: Scope): Value
    decreases e, 1
  {
    match ShapeOf(e, scope)
    case Kept => e
    case EmptyBegin => Void
    case Form(None, _, _) => Pair(Normal(e.car, scope), NormalItems(e.cdr, 0, scope))
    case Form(Some(k), kept, inner) => Pair(Sym(KeywordName(k), 0), NormalItems(e.cdr, kept, inner))
  }

  function NormalItems(list: Value, kept: nat, scope: Scope): Value
    decreases list, 0
  {
    if !list.Pair? then list
    else if kept > 0 then Pair(list.car, NormalItems(list.cdr, kept - 1, scope))
    else Pair(Normal(list.car, scope), NormalItems(list.cdr, 0, scope))
  }

  /** Nothing in evaluated position is (begin), or a keyword spelled otherwise. */
  predicate Untouched(e: Value, scope: Scope)
    decreases e, 1
  {
    match ShapeOf(e, scope)
    case Kept => true
    case EmptyBegin => false
    case Form(None, _, _) => Untouched(e.car, scope) && UntouchedItems(e.cdr, 0, scope)
    case Form(Some(k), kept, inner) => e.car == Sym(KeywordName(k), 0) && UntouchedItems(e.cdr, kept, inner)
  }

  predicate UntouchedItems(list: Value, kept: nat, scope: Scope)
    decreases list, 0
  {
    list.Pair? ==>
      && (kept == 0 ==> Untouched(list.car, scope))
      && UntouchedItems(list.cdr, if kept > 0 then kept - 1 else 0, scope)
  }

  // ---- the round trip ----

  lemma {:induction false} LowerAllIff(list: Value, scope: Scope)
    ensures LowerAll(list, scope).Some? <==> Proper(list)
    ensures Proper(list) ==> |LowerAll(list, scope).value| == Length(list)
  {
    if list.Pair? {
      LowerAllIff(list.cdr, scope);
    }
  }

  // Short lists, as the lowering tests them one pair at a time.
  lemma ShortLists(list: Value)
    ensures Arity(list, 1, 1) <==> list.Pair? && list.cdr.Nil?
    ensures Arity(list, 2, 2) <==> list.Pair? && list.cdr.Pair? && list.cdr.cdr.Nil?
    ensures Arity(list, 3, 3) <==> list.Pair? && list.cdr.Pair? && list.cdr.cdr.Pair? && list.cdr.cdr.cdr.Nil?
    ensures Arity(list, 2, 3) <==> Arity(list, 2, 2) || Arity(list, 3, 3)
  {
    hide Proper, Length;
    Peel(list);
    if list.Pair? {
      Peel(list.cdr);
      if list.cdr.Pair? {
        Peel(list.cdr.cdr);
        if list.cdr.cdr.Pair? {
          Peel(list.cdr.cdr.cdr);
        }
      }
    }
  }

  lemma Peel(list: Value)
    ensures Length(list) == (if list.Pair? then 1 + Length(list.cdr) else 0)
    ensures Proper(list) == if list.Pair? then Proper(list.cdr) else list.Nil?
  {
  }

  // The first two or three items of a list that keeps none.
  lemma ItemsTwice(list: Value, kept: nat, scope: Scope)
    requires list.Pair? && list.cdr.Pair? && kept <= 1
    ensures NormalItems(list, kept, scope)
         == Pair(if kept == 0 then Normal(list.car, scope) else list.car,
                 Pair(Normal(list.cdr.car, scope), NormalItems(list.cdr.cdr, 0, scope)))
  {
  }

  /** Lowering and emitting gives the normal form, for every expression. */
  lemma {:induction false} RoundTripIsNormal(e: Value, scope: Scope)
    ensures Emit(Lower(e, scope)) == Normal(e, scope)
    decreases e, 1
  {
    hide HeadKeyword, ParamNames;
    if e.Pair? {
      LowerAllIff(e.cdr, scope);
      match HeadKeyword(e.car, scope)
      case If => IfRoundTrip(e, scope);
      case Lambda => LambdaRoundTrip(e, scope);
      case Plain => CallRoundTrip(e, scope);
      case SetForm => StoreRoundTrip(e, scope);
      case Define => StoreRoundTrip(e, scope);
      case Quote => QuoteRoundTrip(e, scope);
      case Begin => if Proper(e.cdr) { ItemsRoundTrip(e.cdr, scope); }
      case And => if Proper(e.cdr) { ItemsRoundTrip(e.cdr, scope); }
      case Or => if Proper(e.cdr) { ItemsRoundTrip(e.cdr, scope); }
      case _ =>
    }
  }

  lemma QuoteRoundTrip(e: Value, scope: Scope)
    requires e.Pair? && HeadKeyword(e.car, scope) == Quote
    ensures Emit(Lower(e, scope)) == Normal(e, scope)
  {
    hide HeadKeyword, Arity;
    ShortLists(e.cdr);
    if Arity(e.cdr, 1, 1) {
      TwoOrThree(e.cdr.car, Nil, Nil);
      assert NormalItems(e.cdr, 1, scope) == Pair(e.cdr.car, NormalItems(e.cdr.cdr, 0, scope));
    }
  }

  lemma {:induction false} ItemsRoundTrip(list: Value, scope: Scope)
    requires Proper(list)
    ensures LowerAll(list, scope).Some? && ListOf(EmitAll(LowerAll(list, scope).value)) == NormalItems(list, 0, scope)
    decreases list, 0
  {
    LowerAllIff(list, scope);
    if list.Pair? {
      RoundTripIsNormal(list.car, scope);
      ItemsRoundTrip(list.cdr, scope);
    }
  }

  lemma {:induction false} IfRoundTrip(e: Value, scope: Scope)
    requires e.Pair? && HeadKeyword(e.car, scope) == If
    ensures Emit(Lower(e, scope)) == Normal(e, scope)
    decreases e, 0
  {
    hide HeadKeyword, Arity, Normal;
    var args := e.cdr;
    ShortLists(args);
    NormalIf(e, scope);
    if Arity(args, 2, 3) {
      ItemsTwice(args, 0, scope);
      RoundTripIsNormal(args.car, scope);
      RoundTripIsNormal(args.cdr.car, scope);
      TwoOrThree(Emit(Lower(args.car, scope)), Emit(Lower(args.cdr.car, scope)),
                 if Arity(args, 3, 3) then Emit(Lower(args.cdr.cdr.car, scope)) else Nil);
      if Arity(args, 3, 3) {
        RoundTripIsNormal(args.cdr.cdr.car, scope);
      }
    }
  }

  lemma NormalIf(e: Value, scope: Scope)
    requires e.Pair? && HeadKeyword(e.car, scope) == If
    ensures Normal(e, scope) == if Arity(e.cdr, 2, 3) then Pair(Sym(KeywordName(If), 0), NormalItems(e.cdr, 0, scope)) else e
  {
  }

  lemma TwoOrThree(a: Value, b: Value, c: Value)
    ensures ListOf([a]) == Pair(a, Nil)
    ensures ListOf([a, b]) == Pair(a, Pair(b, Nil))
    ensures ListOf([a, b, c]) == Pair(a, Pair(b, Pair(c, Nil)))
  {
    assert [a, b, c][1..] == [b, c];
    assert [a, b][1..] == [b] && [b, c][1..] == [c];
    assert ListOf([b, c]) == Pair(b, Pair(c, Nil));
  }

  lemma {:induction false} StoreRoundTrip(e: Value, scope: Scope)
    requires e.Pair? && (HeadKeyword(e.car, scope) == SetForm || HeadKeyword(e.car, scope) == Define)
    ensures Emit(Lower(e, scope)) == Normal(e, scope)
    decreases e, 0
  {
    hide HeadKeyword, Arity;
    var args := e.cdr;
    ShortLists(args);
    if Arity(args, 2, 2) {
      ItemsTwice(args, 1, scope);
      RoundTripIsNormal(args.cdr.car, scope);
      TwoOrThree(args.car, Emit(Lower(args.cdr.car, scope)), Nil);
    }
  }

  lemma {:induction false} LambdaRoundTrip(e: Value, scope: Scope)
    requires e.Pair? && HeadKeyword(e.car, scope) == Lambda
    ensures Emit(Lower(e, scope)) == Normal(e, scope)
    decreases e, 0
  {
    hide HeadKeyword, ParamNames;
    if e.cdr.Pair? && e.cdr.cdr.Pair? && ParamNames(e.cdr.car).Some? {
      var inner := [ParamNames(e.cdr.car).value] + scope;
      LowerAllIff(e.cdr.cdr, inner);
      if Proper(e.cdr.cdr) {
        ItemsRoundTrip(e.cdr.cdr, inner);
      }
    }
  }

  lemma {:induction false} CallRoundTrip(e: Value, scope: Scope)
    requires e.Pair? && HeadKeyword(e.car, scope) == Plain
    ensures Emit(Lower(e, scope)) == Normal(e, scope)
    decreases e, 0
  {
    hide HeadKeyword, PrimOf, Basename;
    LowerAllIff(e.cdr, scope);
    if Proper(e.cdr) {
      ItemsRoundTrip(e.cdr, scope);
      RoundTripIsNormal(e.car, scope);
    }
  }

  lemma {:induction false} NormalIsSameIff(e: Value, scope: Scope)
    ensures Normal(e, scope) == e <==> Untouched(e, scope)
    decreases e, 1
  {
    hide HeadKeyword, ParamNames;
    match ShapeOf(e, scope)
    case Kept =>
    case EmptyBegin =>
    case Form(None, _, _) => NormalIsSameIff(e.car, scope); ItemsAreSameIff(e.cdr, 0, scope);
    case Form(Some(k), kept, inner) => ItemsAreSameIff(e.cdr, kept, inner);
  }

  lemma {:induction false} ItemsAreSameIff(list: Value, kept: nat, scope: Scope)
    ensures NormalItems(list, kept, scope) == list <==> UntouchedItems(list, kept, scope)
    decreases list, 0
  {
    if list.Pair? {
      NormalIsSameIff(list.car, scope);
      ItemsAreSameIff(list.cdr, if kept > 0 then kept - 1 else 0, scope);
    }
  }

  /** An expression comes back unchanged exactly when no evaluated part of it is
      (begin) or starts with a renamed or uninterned keyword. */
  lemma RoundTripIff(e: Value, scope: Scope)
    ensures Emit(Lower(e, scope)) == e <==> Untouched(e, scope)
  {
    RoundTripIsNormal(e, scope);
    NormalIsSameIff(e, scope);
  }

  // ---- ordinary expressions ----

  /** Every symbol is interned and carries no hygiene mark. */
  predicate Ordinary(e: Value) {
    match e
    case Sym(name, tag) => tag == 0 && !IsRenamed(name)
    case Pair(a, d) => Ordinary(a) && Ordinary(d)
    case _ => true
  }

  predicate HasEmptyBegin(e: Value, scope: Scope)
    decreases e, 1
  {
    match ShapeOf(e, scope)
    case Kept => false
    case EmptyBegin => true
    case Form(None, _, _) => HasEmptyBegin(e.car, scope) || ItemsHaveEmptyBegin(e.cdr, 0, scope)
    case Form(Some(k), kept, inner) => ItemsHaveEmptyBegin(e.cdr, kept, inner)
  }

  predicate ItemsHaveEmptyBegin(list: Value, kept: nat, scope: Scope)
    decreases list, 0
  {
    list.Pair? &&
    ((kept == 0 && HasEmptyBegin(list.car, scope)) ||
     ItemsHaveEmptyBegin(list.cdr, if kept > 0 then kept - 1 else 0, scope))
  }

  lemma OrdinaryHead(head: Value, scope: Scope)
    requires Ordinary(head)
    ensures var k := HeadKeyword(head, scope);
            k != Plain && k != Derived ==> head == Sym(KeywordName(k), 0)
  {
    hide Binds;
  }

  lemma FormHead(e: Value, scope: Scope)
    requires Ordinary(e)
    ensures match ShapeOf(e, scope)
            case Form(Some(k), _, _) => e.Pair? && k == HeadKeyword(e.car, scope) && e.car == Sym(KeywordName(k), 0)
            case _ => true
  {
    hide HeadKeyword, KeywordName, ParamNames;
    if e.Pair? {
      OrdinaryHead(e.car, scope);
    }
  }

  lemma {:induction false} OrdinaryUntouchedIff(e: Value, scope: Scope)
    requires Ordinary(e)
    ensures Untouched(e, scope) <==> !HasEmptyBegin(e, scope)
    decreases e, 1
  {
    hide ShapeOf, KeywordName;
    FormHead(e, scope);
    match ShapeOf(e, scope)
    case Kept =>
    case EmptyBegin =>
    case Form(None, _, _) =>
      FormIsPair(e, scope);
      OrdinaryUntouchedIff(e.car, scope);
      OrdinaryItemsIff(e.cdr, 0, scope);
    case Form(Some(k), kept, inner) => OrdinaryItemsIff(e.cdr, kept, inner);
  }

  lemma FormIsPair(e: Value, scope: Scope)
    ensures ShapeOf(e, scope).Form? ==> e.Pair?
  {
  }

  lemma {:induction false} OrdinaryItemsIff(list: Value, kept: nat, scope: Scope)
    requires Ordinary(list)
    ensures UntouchedItems(list, kept, scope) <==> !ItemsHaveEmptyBegin(list, kept, scope)
    decreases list, 0
  {
    if list.Pair? {
      OrdinaryUntouchedIff(list.car, scope);
      OrdinaryItemsIff(list.cdr, if kept > 0 then kept - 1 else 0, scope);
    }
  }

  /** Without renamed or uninterned symbols, only an evaluated (begin) changes. */
  lemma OrdinaryRoundTripIff(e: Value, scope: Scope)
    requires Ordinary(e)
    ensures Emit(Lower(e, scope)) == e <==> !HasEmptyBegin(e, scope)
  {
    RoundTripIff(e, scope);
    OrdinaryUntouchedIff(e, scope);
  }

  lemma {:induction false} ItemsKeepLength(list: Value, kept: nat, scope: Scope)
    ensures Proper(NormalItems(list, kept, scope)) == Proper(list)
    ensures Length(NormalItems(list, kept, scope)) == Length(list)
    ensures list.Pair? <==> NormalItems(list, kept, scope).Pair?
    ensures list.Nil? <==> NormalItems(list, kept, scope).Nil?
    ensures list.Pair? && kept > 0 ==> NormalItems(list, kept, scope).car == list.car
    decreases list
  {
    hide Normal;
    if list.Pair? {
      ItemsKeepLength(list.cdr, if kept > 0 then kept - 1 else 0, scope);
    }
  }

  lemma NormalKeepsSymbol(e: Value, scope: Scope)
    ensures e.Sym? ==> Normal(e, scope) == e
    ensures !e.Sym? ==> !Normal(e, scope).Sym?
  {
    hide HeadKeyword, ParamNames;
  }

  lemma PlainHeads(a: Value, b: Value, scope: Scope)
    requires (a.Sym? ==> a == b) && (!a.Sym? ==> !b.Sym?)
    ensures HeadKeyword(b, scope) == HeadKeyword(a, scope)
  {
  }

  lemma NonPairsStay(e: Value, scope: Scope)
    ensures !e.Pair? ==> ShapeOf(e, scope) == Kept
  {
  }

  /** The primitive a name is lowered to is the one that name is emitted for. */
  lemma PrimNamesMatch(base: string, p: Prim)
    ensures PrimOf(base) == Some(p) <==> base == PrimName(p)
  {
  }

  // ---- the loops ----

  /** Counts the items, refuses an improper tail, then lowers them one by one. */
  method LowerListNodes(list: Value, scope: Scope) returns (r: Option<seq<Node>>)
    ensures r == LowerAll(list, scope)
  {
    hide Lower;
    var count := 0;
    var it := list;
    while it.Pair?
      invariant Length(list) == count + Length(it) && Proper(list) == Proper(it)
      decreases it
    {
      count := count + 1;
      it := it.cdr;
    }
    LowerAllIff(list, scope);
    if !it.Nil? {
      return None;
    }
    var items: seq<Node> := [];
    it := list;
    while it.Pair?
      invariant Proper(it) && LowerAll(it, scope).Some?
      invariant items + LowerAll(it, scope).value == LowerAll(list, scope).value
      decreases it
    {
      LowerAllIff(it.cdr, scope);
      items := items + [Lower(it.car, scope)];
      it := it.cdr;
    }
    assert items + [] == items;
    return Some(items);
  }

  method PushLambdaParams(params: Value) returns (r: Option<seq<string>>)
    ensures r == ParamNames(params)
  {
    var names: seq<string> := [];
    var p := params;
    JoinedEnds(names, ParamNames(p));
    ParamsFit(params);
    while p.Pair?
      invariant |names| <= BOUND_MAX
      invariant ParamNames(params) == Joined(names, ParamNames(p))
      decreases p
    {
      ParamsFit(p);
      if p.car.Sym? {
        JoinedTwice(names, p.car.name, ParamNames(p.cdr));
      }
      if !p.car.Sym? {
        return None;
      }
      if |names| >= BOUND_MAX {
        return None;
      }
      names := names + [p.car.name];
      p := p.cdr;
    }
    if p.Sym? {
      if |names| >= BOUND_MAX {
        return None;
      }
      names := names + [p.name];
    } else if !p.Nil? {
      return None;
    }
    JoinedEnds(names, Some([]));
    return Some(names);
  }

  // What the whole parameter list binds, after some names and given the rest.
  function Joined(names: seq<string>, rest: Option<seq<string>>): Option<seq<string>> {
    if rest.None? || |names| + |rest.value| > BOUND_MAX then None else Some(names + rest.value)
  }

  lemma JoinedTwice(names: seq<string>, x: string, rest: Option<seq<string>>)
    ensures Joined(names, Joined([x], rest)) == Joined(names + [x], rest)
    ensures |names| >= BOUND_MAX ==> Joined(names + [x], rest).None?
  {
    if rest.Some? {
      assert names + ([x] + rest.value) == names + [x] + rest.value;
    }
  }

  lemma JoinedEnds(names: seq<string>, rest: Option<seq<string>>)
    ensures rest.Some? && |rest.value| <= BOUND_MAX ==> Joined([], rest) == rest
    ensures |names| <= BOUND_MAX ==> Joined(names, Some([])) == Some(names)
  {
    assert names + [] == names;
    if rest.Some? {
      assert [] + rest.value == rest.value;
    }
  }

  lemma {:induction false} ParamsFit(p: Value)
    ensures ParamNames(p).Some? ==> |ParamNames(p).value| <= BOUND_MAX
    ensures p.Pair? && p.car.Sym? ==> ParamNames(p) == Joined([p.car.name], ParamNames(p.cdr))
  {
    if p.Pair? {
      ParamsFit(p.cdr);
    }
  }

  /** A list is built from its last item backwards. */
  method BuildList(items: seq<Value>) returns (list: Value)
    ensures list == ListOf(items)
  {
    list := Nil;
    var i := |items|;
    while i > 0
      invariant 0 <= i <= |items| && list == ListOf(items[i..])
    {
      assert items[i - 1..] == [items[i - 1]] + items[i..];
      list := Pair(items[i - 1], list);
      i := i - 1;
    }
    assert items[0..] == items;
  }

  method ConvertNodeArray(nodes: seq<Node>) returns (values: seq<Value>)
    ensures values == EmitAll(nodes)
  {
    values := [];
    var i := 0;
    while i < |nodes|
      invariant i <= |nodes| && values + EmitAll(nodes[i..]) == EmitAll(nodes)
    {
      assert nodes[i..][0] == nodes[i] && nodes[i..][1..] == nodes[i + 1..];
      values := values + [Emit(nodes[i])];
      i := i + 1;
    }
  }

  /** Looks for a name in the parameter lists around an expression. */
  method ScopeBinds(scope: Scope, name: string) returns (found: bool)
    ensures found == Binds(scope, name)
  {
    var s := 0;
    while s < |scope|
      invariant s <= |scope| && forall j :: 0 <= j < s ==> name !in scope[j]
    {
      var i := 0;
      while i < |scope[s]|
        invariant i <= |scope[s]| && name !in scope[s][..i]
      {
        if scope[s][i] == name {
          return true;
        }
        i := i + 1;
      }
      assert scope[s][..i] == scope[s];
      s := s + 1;
    }
    return false;
  }
}
