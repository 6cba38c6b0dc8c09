/** When emitting an expression keeps what it means to the next lowering: a renamed
    keyword comes back under its plain name, which a parameter may capture. */
module IrCapture {
  import opened IrForms
  import opened IrRoundTrip

  /** An evaluated form has a renamed keyword head whose plain name is bound there. */
  predicate Captured(e: Value, scope: Scope)
    decreases e, 1
  {
    match ShapeOf(e, scope)
    case Kept => false
    case EmptyBegin => false
    case Form(None, _, _) => Captured(e.car, scope) || ItemsCaptured(e.cdr, 0, scope)
    case Form(Some(k), kept, inner) => HeadCaptured(e.car, k, scope) || ItemsCaptured(e.cdr, kept, inner)
  }

  predicate ItemsCaptured(list: Value, kept: nat, scope: Scope)
    decreases list, 0
  {
    list.Pair? &&
    ((kept == 0 && Captured(list.car, scope)) || ItemsCaptured(list.cdr, if kept > 0 then kept - 1 else 0, scope))
  }

  predicate HeadCaptured(head: Value, k: Keyword, scope: Scope) {
    head.Sym? && IsRenamed(head.name) && Binds(scope, KeywordName(k))
  }

  /** The tree with its empty sequences made void. */
  function Voided(n: Node): Node {
    match n
    case SeqNode(items) => if items == [] then VoidNode else SeqNode(VoidedAll(items))
    case IfNode(t, c, None) => IfNode(Voided(t), Voided(c), None)
    case IfNode(t, c, Some(a)) => IfNode(Voided(t), Voided(c), Some(Voided(a)))
    case LambdaNode(params, body) => LambdaNode(params, VoidedAll(body))
    case CallNode(callee, args) => CallNode(Voided(callee), VoidedAll(args))
    case SetNode(name, value) => SetNode(name, Voided(value))
    case DefineNode(target, value) => DefineNode(target, Voided(value))
    case AndNode(items) => AndNode(VoidedAll(items))
    case OrNode(items) => OrNode(VoidedAll(items))
    case PrimNode(prim, symbol, args) => PrimNode(prim, symbol, VoidedAll(args))
    case _ => n
  }

  function VoidedAll(ns: seq<Node>): (vs: seq<Node>)
    ensures |vs| == |ns|
  {
    if ns == [] then [] else [Voided(ns[0])] + VoidedAll(ns[1..])
  }

  // ---- the tree of a keyword form ----

  /** The node of a form: the item it keeps, and the nodes of its parts. */
  function Build(k: Keyword, first: Value, ns: seq<Node>): Node
    requires Fits(k, |ns|)
  {
    match k
    case Quote => Quoted(first)
    case If => IfNode(ns[0], ns[1], if |ns| == 3 then Some(ns[2]) else None)
    case Begin => SeqNode(ns)
    case Lambda => LambdaNode(first, ns)
    case SetForm => SetNode(first, ns[0])
    case Define => DefineNode(first, ns[0])
    case And => AndNode(ns)
    case _ => OrNode(ns)
  }

  predicate Fits(k: Keyword, n: nat) {
    match k
    case Quote => n == 0
    case If => 2 <= n <= 3
    case Begin => n > 0
    case SetForm => n == 1
    case Define => n == 1
    case _ => true
  }

  function FirstOf(args: Value, kept: nat): Value {
    if kept > 0 && args.Pair? then args.car else Nil
  }

  function RestOf(args: Value, kept: nat): Value {
    if kept > 0 && args.Pair? then args.cdr else args
  }

  lemma FormFits(e: Value, scope: Scope)
    requires ShapeOf(e, scope).Form? && ShapeOf(e, scope).keyword.Some?
    ensures var shape := ShapeOf(e, scope); var rest := RestOf(e.cdr, shape.kept);
            && e.Pair? && shape.kept <= 1 && (shape.kept == 1 ==> e.cdr.Pair?)
            && shape.keyword.value == HeadKeyword(e.car, scope)
            && Proper(rest) && Fits(shape.keyword.value, Length(rest))
  {
    hide HeadKeyword, ParamNames;
    Peel(e.cdr);
    Peel(RestOf(e.cdr, 1));
  }

  lemma LowerIsBuild(e: Value, scope: Scope)
    requires ShapeOf(e, scope).Form? && ShapeOf(e, scope).keyword.Some?
    ensures var shape := ShapeOf(e, scope); var rest := RestOf(e.cdr, shape.kept);
            && LowerAll(rest, shape.scope).Some? && Fits(shape.keyword.value, |LowerAll(rest, shape.scope).value|)
            && Lower(e, scope) == Build(shape.keyword.value, FirstOf(e.cdr, shape.kept), LowerAll(rest, shape.scope).value)
  {
    hide HeadKeyword, ParamNames, Proper, Length, Arity;
    FormFits(e, scope);
    var shape := ShapeOf(e, scope);
    var rest := RestOf(e.cdr, shape.kept);
    LowerAllIff(rest, shape.scope);
    ShortLists(e.cdr);
    Peel(e.cdr);
    OneTwoThree(rest, shape.scope);
  }

  lemma OneTwoThree(list: Value, scope: Scope)
    requires Proper(list)
    ensures LowerAll(list, scope).Some?
    ensures list.Pair? && list.cdr.Nil? ==> LowerAll(list, scope).value == [Lower(list.car, scope)]
    ensures list.Pair? && list.cdr.Pair? && list.cdr.cdr.Nil? ==>
              LowerAll(list, scope).value == [Lower(list.car, scope), Lower(list.cdr.car, scope)]
    ensures list.Pair? && list.cdr.Pair? && list.cdr.cdr.Pair? && list.cdr.cdr.cdr.Nil? ==>
              LowerAll(list, scope).value == [Lower(list.car, scope), Lower(list.cdr.car, scope), Lower(list.cdr.cdr.car, scope)]
  {
    hide Lower;
    LowerAllIff(list, scope);
    if list.Pair? {
      LowerAllIff(list.cdr, scope);
      if list.cdr.Pair? {
        LowerAllIff(list.cdr.cdr, scope);
      }
    }
  }

  lemma VoidedBuild(k: Keyword, first: Value, ns: seq<Node>)
    requires Fits(k, |ns|)
    ensures Voided(Build(k, first, ns)) == Build(k, first, VoidedAll(ns))
  {
    hide Voided, VoidedAll;
    VoidedCases(k, first, ns);
    forall i | 0 <= i < |ns|
      ensures VoidedAll(ns)[i] == Voided(ns[i])
    {
      VoidedAt(ns, i);
    }
  }

  lemma VoidedCases(k: Keyword, first: Value, ns: seq<Node>)
    requires Fits(k, |ns|)
    ensures Voided(Build(k, first, ns))
         == match k
            case If => IfNode(Voided(ns[0]), Voided(ns[1]), if |ns| == 3 then Some(Voided(ns[2])) else None)
            case SetForm => SetNode(first, Voided(ns[0]))
            case Define => DefineNode(first, Voided(ns[0]))
            case _ => Build(k, first, VoidedAll(ns))
  {
    hide VoidedAll;
  }

  lemma {:induction false} VoidedAt(ns: seq<Node>, i: nat)
    requires i < |ns|
    ensures VoidedAll(ns)[i] == Voided(ns[i])
  {
    hide Voided;
    if i > 0 {
      VoidedAt(ns[1..], i - 1);
    }
  }

  lemma BuildIsInjective(k: Keyword, first: Value, a: seq<Node>, b: seq<Node>)
    requires Fits(k, |a|) && Fits(k, |b|)
    ensures Build(k, first, a) == Build(k, first, b) <==> a == b
  {
  }

  lemma BuildIsNoCall(k: Keyword, first: Value, ns: seq<Node>)
    requires Fits(k, |ns|)
    ensures !Build(k, first, ns).CallNode?
  {
  }

  // ---- the head on the way back ----

  /** The plain keyword is the keyword again exactly where nothing binds its name. */
  lemma PlainHeadIff(head: Value, k: Keyword, scope: Scope)
    requires HeadKeyword(head, scope) == k && k != Plain && k != Derived && k != DefineSyntax
    ensures HeadKeyword(Sym(KeywordName(k), 0), scope) == if HeadCaptured(head, k, scope) then Plain else k
    ensures HeadCaptured(head, k, scope) ==> Shadowed(Sym(KeywordName(k), 0), scope)
  {
    hide Binds;
    PlainNameIs(k);
    if !IsRenamed(head.name) {
      assert head.name == KeywordName(k);
    }
  }

  lemma PlainNameIs(k: Keyword)
    requires k != Plain && k != Derived && k != DefineSyntax
    ensures !IsRenamed(KeywordName(k)) && KeywordOf(KeywordName(k)) == k
  {
    assert HYGIENE_PREFIX[0] == '_' && KeywordName(k)[0] != '_';
  }

  lemma NormalForm(e: Value, scope: Scope)
    requires ShapeOf(e, scope).Form? && ShapeOf(e, scope).keyword.Some?
    ensures var shape := ShapeOf(e, scope); var k := shape.keyword.value;
            && k != Plain && k != Derived && k != DefineSyntax
            && Normal(e, scope) == Pair(Sym(KeywordName(k), 0), NormalItems(e.cdr, shape.kept, shape.scope))
  {
    hide HeadKeyword, ParamNames, KeywordName;
  }

  lemma NormalKeepsShape(e: Value, scope: Scope)
    requires ShapeOf(e, scope).Form? && ShapeOf(e, scope).keyword.Some?
    requires !HeadCaptured(e.car, ShapeOf(e, scope).keyword.value, scope)
    ensures ShapeOf(Normal(e, scope), scope) == ShapeOf(e, scope)
  {
    hide ParamNames, NormalItems, HeadKeyword;
    var shape := ShapeOf(e, scope);
    FormFits(e, scope);
    NormalForm(e, scope);
    PlainHeadIff(e.car, shape.keyword.value, scope);
    ItemsKeepLength(e.cdr, shape.kept, shape.scope);
  }

  lemma RestIsNormal(args: Value, kept: nat, scope: Scope)
    requires kept <= 1 && (kept == 1 ==> args.Pair?)
    ensures FirstOf(NormalItems(args, kept, scope), kept) == FirstOf(args, kept)
    ensures RestOf(NormalItems(args, kept, scope), kept) == NormalItems(RestOf(args, kept), 0, scope)
    ensures ItemsCaptured(args, kept, scope) == ItemsCaptured(RestOf(args, kept), 0, scope)
  {
    hide Normal, Captured;
  }

  // ---- the theorem ----

  /** Emitting and lowering again gives the same tree, its empty sequences made
      void, exactly when no renamed keyword is captured. */
  lemma {:induction false} LowerAgainIff(e: Value, scope: Scope)
    ensures Lower(Normal(e, scope), scope) == Voided(Lower(e, scope)) <==> !Captured(e, scope)
    decreases e, 1
  {
    match ShapeOf(e, scope)
    case Kept => KeptIsLeaf(e, scope);
    case EmptyBegin => EmptyIsVoid(e, scope);
    case Form(None, _, _) => CallAgainIff(e, scope);
    case Form(Some(k), kept, inner) =>
      FormFits(e, scope);
      if HeadCaptured(e.car, k, scope) {
        CapturedIsCall(e, scope);
      } else {
        FormAgainIff(e, scope);
      }
  }

  lemma KeptIsLeaf(e: Value, scope: Scope)
    requires ShapeOf(e, scope) == Kept
    ensures Normal(e, scope) == e && Voided(Lower(e, scope)) == Lower(e, scope) && !Captured(e, scope)
  {
    hide HeadKeyword, ParamNames, Proper, Length, Arity;
    if e.Pair? {
      LowerAllIff(e.cdr, scope);
      ShortLists(e.cdr);
      if HeadKeyword(e.car, scope) == Lambda {
        KeptLambda(e, scope);
      }
    }
  }

  lemma KeptLambda(e: Value, scope: Scope)
    requires e.Pair? && HeadKeyword(e.car, scope) == Lambda && ShapeOf(e, scope) == Kept
    ensures Lower(e, scope) == Raw(e)
  {
    hide HeadKeyword, ParamNames;
    if e.cdr.Pair? && e.cdr.cdr.Pair? && ParamNames(e.cdr.car).Some? {
      AtLeastTwo(e.cdr);
      LowerAllIff(e.cdr.cdr, [ParamNames(e.cdr.car).value] + scope);
    }
  }

  lemma AtLeastTwo(args: Value)
    ensures Proper(args) && Length(args) >= 2 <==> args.Pair? && args.cdr.Pair? && Proper(args.cdr)
  {
  }

  lemma EmptyIsVoid(e: Value, scope: Scope)
    requires ShapeOf(e, scope) == EmptyBegin
    ensures Normal(e, scope) == Void && Voided(Lower(e, scope)) == VoidNode && !Captured(e, scope)
  {
    hide HeadKeyword, ParamNames;
  }

  lemma CapturedIsCall(e: Value, scope: Scope)
    requires ShapeOf(e, scope).Form? && ShapeOf(e, scope).keyword.Some?
    requires HeadCaptured(e.car, ShapeOf(e, scope).keyword.value, scope)
    ensures Lower(Normal(e, scope), scope).CallNode? && !Voided(Lower(e, scope)).CallNode?
    ensures Captured(e, scope)
  {
    hide HeadKeyword, ParamNames, Shadowed, Binds, KeywordName, NormalItems, Build, Voided;
    var shape := ShapeOf(e, scope);
    var k := shape.keyword.value;
    FormFits(e, scope);
    NormalForm(e, scope);
    PlainHeadIff(e.car, k, scope);
    ItemsKeepLength(e.cdr, shape.kept, shape.scope);
    ProperForm(e, scope);
    ShadowedIsCall(Normal(e, scope), scope);
    LowerIsBuild(e, scope);
    var ns := LowerAll(RestOf(e.cdr, shape.kept), shape.scope).value;
    VoidedBuild(k, FirstOf(e.cdr, shape.kept), ns);
    BuildIsNoCall(k, FirstOf(e.cdr, shape.kept), VoidedAll(ns));
  }

  lemma ProperForm(e: Value, scope: Scope)
    ensures ShapeOf(e, scope).Form? ==> e.Pair? && Proper(e.cdr)
  {
    hide HeadKeyword, ParamNames;
  }

  lemma ShadowedIsCall(e: Value, scope: Scope)
    requires e.Pair? && Proper(e.cdr) && Shadowed(e.car, scope) && HeadKeyword(e.car, scope) == Plain
    ensures Lower(e, scope).CallNode?
  {
    hide HeadKeyword;
    LowerAllIff(e.cdr, scope);
  }

  lemma {:induction false} FormAgainIff(e: Value, scope: Scope)
    requires ShapeOf(e, scope).Form? && ShapeOf(e, scope).keyword.Some?
    requires !HeadCaptured(e.car, ShapeOf(e, scope).keyword.value, scope)
    ensures Lower(Normal(e, scope), scope) == Voided(Lower(e, scope)) <==> !Captured(e, scope)
    decreases e, 0
  {
    hide HeadKeyword, ParamNames, Lower, LowerAll, Build, Voided, VoidedAll, ItemsCaptured, Normal, NormalItems, ShapeOf, Fits, FirstOf;
    var shape := ShapeOf(e, scope);
    var k := shape.keyword.value;
    FormFits(e, scope);
    NormalForm(e, scope);
    NormalKeepsShape(e, scope);
    LowerIsBuild(e, scope);
    LowerIsBuild(Normal(e, scope), scope);
    RestIsNormal(e.cdr, shape.kept, shape.scope);
    var rest := RestOf(e.cdr, shape.kept);
    ItemsAgainIff(rest, shape.scope);
    var ns := LowerAll(rest, shape.scope).value;
    var first := FirstOf(e.cdr, shape.kept);
    VoidedBuild(k, first, ns);
    BuildIsInjective(k, first, LowerAll(NormalItems(rest, 0, shape.scope), shape.scope).value, VoidedAll(ns));
  }

  lemma {:induction false} ItemsAgainIff(list: Value, scope: Scope)
    requires Proper(list)
    ensures LowerAll(list, scope).Some? && LowerAll(NormalItems(list, 0, scope), scope).Some?
    ensures LowerAll(NormalItems(list, 0, scope), scope).value == VoidedAll(LowerAll(list, scope).value)
       <==> !ItemsCaptured(list, 0, scope)
    decreases list, 0
  {
    hide Lower, Normal, Voided, Captured;
    LowerAllIff(list, scope);
    ItemsKeepLength(list, 0, scope);
    LowerAllIff(NormalItems(list, 0, scope), scope);
    if list.Pair? {
      LowerAgainIff(list.car, scope);
      ItemsAgainIff(list.cdr, scope);
      LowerAllIff(list.cdr, scope);
      var a := LowerAll(NormalItems(list, 0, scope), scope).value;
      var b := VoidedAll(LowerAll(list, scope).value);
      assert a[0] == Lower(Normal(list.car, scope), scope) && a[1..] == LowerAll(NormalItems(list.cdr, 0, scope), scope).value;
      assert LowerAll(list, scope).value[1..] == LowerAll(list.cdr, scope).value;
      assert b[0] == Voided(Lower(list.car, scope)) && b[1..] == VoidedAll(LowerAll(list.cdr, scope).value);
      assert a == [a[0]] + a[1..] && b == [b[0]] + b[1..];
    }
  }

  lemma {:induction false} CallAgainIff(e: Value, scope: Scope)
    requires ShapeOf(e, scope).Form? && ShapeOf(e, scope).keyword.None?
    ensures Lower(Normal(e, scope), scope) == Voided(Lower(e, scope)) <==> !Captured(e, scope)
    decreases e, 0
  {
    hide HeadKeyword, ParamNames, Shadowed, PrimOf, Basename, LowerAll, VoidedAll, NormalItems, ItemsCaptured, ShapeOf;
    CallShape(e, scope);
    NormalKeepsSymbol(e.car, scope);
    PlainHeads(e.car, Normal(e.car, scope), scope);
    SymbolsStay(e.car, scope);
    LowerAgainIff(e.car, scope);
    ItemsAgainIff(e.cdr, scope);
  }

  lemma CallShape(e: Value, scope: Scope)
    requires ShapeOf(e, scope).Form? && ShapeOf(e, scope).keyword.None?
    ensures e.Pair? && Proper(e.cdr) && HeadKeyword(e.car, scope) == Plain
    ensures Normal(e, scope) == Pair(Normal(e.car, scope), NormalItems(e.cdr, 0, scope))
    ensures Captured(e, scope) == (Captured(e.car, scope) || ItemsCaptured(e.cdr, 0, scope))
  {
    hide HeadKeyword, ParamNames;
  }

  lemma SymbolsStay(v: Value, scope: Scope)
    ensures v.Sym? ==> !Captured(v, scope) && Lower(v, scope) == Var(v)
  {
  }

  /** What an expression means to the next lowering is kept by emitting it exactly
      when no evaluated form of it has a renamed keyword head whose plain name a
      parameter around it binds. */
  lemma EmittingKeepsTreeIff(e: Value, scope: Scope)
    ensures Lower(Emit(Lower(e, scope)), scope) == Voided(Lower(e, scope)) <==> !Captured(e, scope)
  {
    RoundTripIsNormal(e, scope);
    LowerAgainIff(e, scope);
  }

  lemma {:induction false} EmitVoided(n: Node)
    ensures Emit(Voided(n)) == Emit(n)
    decreases n
  {
    match n
    case SeqNode(items) => EmitVoidedAll(items);
    case IfNode(t, c, None) => EmitVoided(t); EmitVoided(c);
    case IfNode(t, c, Some(a)) => EmitVoided(t); EmitVoided(c); EmitVoided(a);
    case LambdaNode(_, body) => EmitVoidedAll(body);
    case CallNode(callee, args) => EmitVoided(callee); EmitVoidedAll(args);
    case SetNode(_, value) => EmitVoided(value);
    case DefineNode(_, value) => EmitVoided(value);
    case AndNode(items) => EmitVoidedAll(items);
    case OrNode(items) => EmitVoidedAll(items);
    case PrimNode(_, _, args) => EmitVoidedAll(args);
    case _ =>
  }

  lemma {:induction false} EmitVoidedAll(ns: seq<Node>)
    ensures EmitAll(VoidedAll(ns)) == EmitAll(ns)
    decreases ns
  {
    if ns != [] {
      EmitVoided(ns[0]);
      EmitVoidedAll(ns[1..]);
      assert VoidedAll(ns)[1..] == VoidedAll(ns[1..]);
    }
  }

  /** Then a second trip changes nothing more. */
  lemma SecondTripIsIdentity(e: Value, scope: Scope)
    requires !Captured(e, scope)
    ensures var once := Emit(Lower(e, scope)); Emit(Lower(once, scope)) == once
  {
    EmittingKeepsTreeIff(e, scope);
    EmitVoided(Lower(e, scope));
  }

  /** Without renamed symbols nothing is captured. */
  lemma {:induction false} OrdinaryIsNotCaptured(e: Value, scope: Scope)
    requires Ordinary(e)
    ensures !Captured(e, scope)
    decreases e, 1
  {
    hide ShapeOf, KeywordName, Binds;
    FormIsPair(e, scope);
    match ShapeOf(e, scope)
    case Form(None, _, _) =>
      OrdinaryIsNotCaptured(e.car, scope);
      OrdinaryItems(e.cdr, 0, scope);
    case Form(Some(k), kept, inner) => OrdinaryItems(e.cdr, kept, inner);
    case _ =>
  }

  lemma {:induction false} OrdinaryItems(list: Value, kept: nat, scope: Scope)
    requires Ordinary(list)
    ensures !ItemsCaptured(list, kept, scope)
    decreases list, 0
  {
    if list.Pair? {
      OrdinaryIsNotCaptured(list.car, scope);
      OrdinaryItems(list.cdr, if kept > 0 then kept - 1 else 0, scope);
    }
  }

  // ---- a renamed keyword under a variable of that name ----

  /** (lambda (if) (__hyg_1_if x y)): the renamed if is the conditional, and comes
      back as the plain name, which the parameter captures: lowering it again gives a call. */
  lemma RenamedKeywordIsCaptured()
    ensures var form := Pair(Sym("__hyg_1_if", 0), Pair(Atom(0), Pair(Atom(1), Nil)));
            var e := Pair(Sym("lambda", 0), Pair(Pair(Sym("if", 0), Nil), Pair(form, Nil)));
            && Lower(form, [["if"]]).IfNode?
            && Lower(Emit(Lower(form, [["if"]])), [["if"]]).CallNode?
            && Captured(form, [["if"]]) && ShapeOf(e, []) == Form(Some(Lambda), 1, [["if"]])
  {
    var form := Pair(Sym("__hyg_1_if", 0), Pair(Atom(0), Pair(Atom(1), Nil)));
    var args := Pair(Atom(0), Pair(Atom(1), Nil));
    RenamedIf();
    ShortLists(args);
    RoundTripIsNormal(form, [["if"]]);
    ItemsTwice(args, 0, [["if"]]);
    NonPairsStay(Atom(0), [["if"]]);
    NonPairsStay(Atom(1), [["if"]]);
    var back := Emit(Lower(form, [["if"]]));
    assert back == Pair(Sym("if", 0), args);
    assert Shadowed(back.car, [["if"]]) by { assert "if" in [["if"]][0]; }
    LowerAllIff(args, [["if"]]);
    BoundIfIsCall(back);
    var params := Pair(Sym("if", 0), Nil);
    var none: seq<string> := [];
    assert ParamNames(Nil) == Some(none) && ["if"] + none == ["if"];
    assert ParamNames(params) == Some(["if"]);
    LambdaShape(params, Pair(form, Nil));
    LowerAgainIff(form, [["if"]]);
  }

  lemma RenamedIf()
    ensures HeadKeyword(Sym("__hyg_1_if", 0), [["if"]]) == If
  {
    var name := "__hyg_1_if";
    assert name[|HYGIENE_PREFIX|..] == "1_if";
    assert "1_if"[1..] == "_if" && "_if"[1..] == "if";
    assert SkipDigits("_if") == "_if";
    assert SkipDigits("1_if") == "_if";
    assert Basename(name) == "if";
  }

  lemma BoundIfIsCall(e: Value)
    requires e.Pair? && e.car == Sym("if", 0) && Proper(e.cdr) && Shadowed(e.car, [["if"]])
    ensures Lower(e, [["if"]]).CallNode?
  {
    LowerAllIff(e.cdr, [["if"]]);
  }

  lemma LambdaShape(params: Value, body: Value)
    requires ParamNames(params).Some? && Proper(body) && body.Pair?
    ensures ShapeOf(Pair(Sym("lambda", 0), Pair(params, body)), []) == Form(Some(Lambda), 1, [ParamNames(params).value])
  {
    var s: Scope := [];
    Peel(Pair(params, body));
    Peel(body);
    assert [ParamNames(params).value] + s == [ParamNames(params).value];
    assert "lambda"[0] != HYGIENE_PREFIX[0];
    assert HeadKeyword(Sym("lambda", 0), s) == Lambda;
  }

  /** (__hyg_1_quote (begin)) under a parameter named quote comes back as (quote (begin)),
      a call there, whose argument a second trip makes void. */
  lemma SecondTripCanChange()
    ensures var e := Pair(Sym("__hyg_1_quote", 0), Pair(Pair(Sym("begin", 0), Nil), Nil));
            var once := Emit(Lower(e, [["quote"]]));
            Emit(Lower(once, [["quote"]])) != once
  {
    var scope := [["quote"]];
    var begin := Pair(Sym("begin", 0), Nil);
    var e := Pair(Sym("__hyg_1_quote", 0), Pair(begin, Nil));
    var once := Pair(Sym("quote", 0), Pair(begin, Nil));
    hide Emit, Lower, Normal, Untouched;
    RenamedQuote();
    assert Emit(Lower(e, scope)) == once by {
      ShortLists(e.cdr);
      RoundTripIsNormal(e, scope);
      QuoteIsKept(e, scope);
    }
    assert Shadowed(once.car, scope) by {
      assert "quote" in scope[0];
      assert "quote"[0] != HYGIENE_PREFIX[0];
    }
    BeginIsTouched(scope);
    CallIsTouched(once, scope);
    RoundTripIff(once, scope);
  }

  lemma QuoteIsKept(e: Value, scope: Scope)
    requires e.Pair? && HeadKeyword(e.car, scope) == Quote && Arity(e.cdr, 1, 1) && e.cdr.Pair? && e.cdr.cdr.Nil?
    ensures Normal(e, scope) == Pair(Sym("quote", 0), e.cdr)
  {
    hide HeadKeyword, Arity;
    assert NormalItems(e.cdr, 1, scope) == Pair(e.cdr.car, NormalItems(e.cdr.cdr, 0, scope));
  }

  lemma BeginIsTouched(scope: Scope)
    requires scope == [["quote"]]
    ensures !Untouched(Pair(Sym("begin", 0), Nil), scope)
  {
    assert "begin"[0] != HYGIENE_PREFIX[0] && "begin" != "quote";
    assert !Binds(scope, "begin") by { assert scope[0] == ["quote"]; }
    assert HeadKeyword(Sym("begin", 0), scope) == Begin;
  }

  lemma CallIsTouched(e: Value, scope: Scope)
    requires e.Pair? && HeadKeyword(e.car, scope) == Plain && Proper(e.cdr)
    requires e.cdr.Pair? && !Untouched(e.cdr.car, scope)
    ensures !Untouched(e, scope)
  {
    hide HeadKeyword;
  }

  lemma RenamedQuote()
    ensures HeadKeyword(Sym("__hyg_1_quote", 0), [["quote"]]) == Quote
  {
    var name := "__hyg_1_quote";
    assert name[|HYGIENE_PREFIX|..] == "1_quote";
    assert "1_quote"[1..] == "_quote" && "_quote"[1..] == "quote";
    assert SkipDigits("_quote") == "_quote";
    assert SkipDigits("1_quote") == "_quote";
    assert Basename(name) == "quote";
  }
}
