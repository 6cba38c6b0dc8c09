/** A form that matches a pattern is rebuilt by the pattern as its template. */
module SyntaxRulesInverse {
  import opened SyntaxRules
  import opened SyntaxRulesMatching

  lemma {:induction false} DeepCopyIsEqual(v: Value)
    ensures DeepCopy(v) == v
  {
    match v
    case Pair(a, d) =>
      DeepCopyIsEqual(a);
      DeepCopyIsEqual(d);
    case Vec(items) =>
      forall i | 0 <= i < |items| ensures DeepCopy(items[i]) == items[i] {
        DeepCopyIsEqual(items[i]);
      }
      assert seq(|items|, i requires 0 <= i < |items| => DeepCopy(items[i])) == items;
    case _ =>
  }

  /** The element has a variable where a template's count of repetitions looks. */
  predicate Counted(p: Value) {
    match p
    case Sym(base, _) => base != ELLIPSIS
    case Pair(a, d) => Counted(a) || (d.Pair? && Counted(d))
    case _ => false
  }

  /** Somewhere an element is repeated that the template cannot repeat as often:
      more than ELLIPSIS_MAX times, or at all when it has no variable to count by. */
  predicate Drops(p: Value, u: Value)
    requires Fragment(p)
  {
    p.Pair? &&
    if Repeats(p) then
      || Reps(p, u) > ELLIPSIS_MAX
      || (Reps(p, u) > 0 && !Counted(p.car))
      || (exists i | 0 <= i < Reps(p, u) :: Drops(p.car, Items(u)[i]))
      || Drops(p.cdr.cdr, Tail(u, Reps(p, u)))
    else
      u.Pair? && (Drops(p.car, u.car) || Drops(p.cdr, u.cdr))
  }

  // ---- counting repetitions ----------------------------------------------

  /** Every variable has a list of n. */
  ghost predicate AllLong(env: Env, vars: set<nat>, n: nat) {
    forall v <- vars :: Find(env, v).Some? && Find(env, v).value.ellipsis > 0 && ListLen(Find(env, v).value.value) == n
  }

  lemma {:induction false} CountIs(p: Value, env: Env, n: nat)
    requires AllLong(env, Vars(p), n) && Find(env, ELLIPSIS).None?
    requires Fragment(p) || (p.Pair? && IsEllipsis(p.car) && Fragment(p.cdr))
    ensures RepeatCount(p, env) == if Counted(p) then n else -1
  {
    match p
    case Pair(a, d) =>
      if Fragment(p) || a.Pair? {
        CountIs(a, env, n);
      }
      if d.Pair? {
        CountIs(d, env, n);
      }
    case _ =>
  }

  lemma PeelRepresents(p: Value, u: Value, env: Env, i: nat)
    requires Fragment(p) && Repeats(p) && AllRepresented(env, p, u) && i < Reps(p, u)
    requires Distinct(env)
    ensures AllRepresented(Peel(env, i), p.car, Items(u)[i]) && Distinct(Peel(env, i))
  {
    var q := Peel(env, i);
    forall v <- Vars(p.car)
      ensures Find(q, v).Some? && Find(q, v).value.base == v && Represents(Find(q, v).value, p.car, Items(u)[i])
    {
      FindAny(env, v);
      var k := IndexOf(env, v);
      FindAt(env, k);
      FindAt(q, k);
      PeeledRepresents(env[k], p, u, i);
    }
  }

  lemma DepthOfItem(e: nat, d: nat, xs: seq<Value>, i: nat)
    requires DepthOk(e, d + 1, List(xs, Nil)) && i < |xs|
    ensures e >= 1 && DepthOk(e - 1, d, xs[i])
  {
    ListItems(xs, Nil);
    assert xs[i] in Items(List(xs, Nil));
  }

  lemma PeeledRepresents(b: Binding, p: Value, u: Value, i: nat)
    requires Fragment(p) && Repeats(p) && b.base in Vars(p.car) && Represents(b, p, u) && i < Reps(p, u)
    ensures b.ellipsis > 0
    ensures Represents(Binding(b.base, Nth(b.value, i), b.ellipsis - 1), p.car, Items(u)[i])
  {
    hide Meaning, Depth, DepthOk, Reps;
    RepeatMeaning(p, u, b.base);
    var means := Meanings(p.car, Items(u)[..Reps(p, u)], b.base);
    DepthOfItem(b.ellipsis, Depth(p.car, b.base), means, i);
    NthOfList(means, Nil, i);
  }

  lemma RepeatedAreLong(p: Value, u: Value, env: Env)
    requires Fragment(p) && Repeats(p) && AllRepresented(env, p, u)
    ensures AllLong(env, Vars(p.car), Reps(p, u))
  {
    forall v <- Vars(p.car)
      ensures Find(env, v).Some? && Find(env, v).value.ellipsis > 0
      ensures ListLen(Find(env, v).value.value) == Reps(p, u)
    {
      var b := Find(env, v).value;
      assert Represents(b, p, u);
      RepeatMeaning(p, u, v);
      ListItems(Meanings(p.car, Items(u)[..Reps(p, u)], v), Nil);
    }
  }

  lemma AfterIsRepresented(p: Value, u: Value, env: Env)
    requires Fragment(p) && Repeats(p) && RepFits(p, u) && AllRepresented(env, p, u)
    requires Vars(p.car) !! Vars(p.cdr.cdr)
    ensures AllRepresented(env, p.cdr.cdr, Tail(u, Reps(p, u)))
  {
    ProperList(u);
    forall v <- Vars(p.cdr.cdr)
      ensures Find(env, v).Some? && Find(env, v).value.base == v
      ensures Represents(Find(env, v).value, p.cdr.cdr, Tail(u, Reps(p, u)))
    {
      assert v in Vars(p.cdr) && v in Vars(p) && v !in Vars(p.car);
      assert Represents(Find(env, v).value, p, u);
    }
  }

  // ---- rebuilding ---------------------------------------------------------

  /** What the inverse is proved about. */
  ghost predicate Bound(p: Value, u: Value, tail: bool, env: Env)
    requires Fragment(p)
  {
    && Matches(p, u, tail) && NoClash(p, u)
    && Distinct(env) && Find(env, ELLIPSIS).None? && AllRepresented(env, p, u)
  }

  lemma NoEllipsisInPeel(env: Env, i: nat)
    requires Distinct(env) && Find(env, ELLIPSIS).None?
    ensures Find(Peel(env, i), ELLIPSIS).None?
  {
    FindAny(env, ELLIPSIS);
    FindAny(Peel(env, i), ELLIPSIS);
    SameNames(env, Peel(env, i));
  }

  lemma RepeatIsBound(p: Value, u: Value, tail: bool, env: Env)
    requires Fragment(p) && Repeats(p) && Bound(p, u, tail, env)
    ensures Bound(p.cdr.cdr, Tail(u, Reps(p, u)), true, env)
    ensures forall i :: 0 <= i < Reps(p, u) ==> Bound(p.car, Items(u)[i], false, Peel(env, i))
    ensures Repetitions(p.car, env) == if !Counted(p.car) then 0 else if Reps(p, u) > ELLIPSIS_MAX then ELLIPSIS_MAX else Reps(p, u)
    ensures u == List(Items(u)[..Reps(p, u)], Tail(u, Reps(p, u)))
  {
    ProperList(u);
    AfterIsRepresented(p, u, env);
    RepeatedAreLong(p, u, env);
    CountIs(p.car, env, Reps(p, u));
    TailSplits(u, Reps(p, u));
    forall i | 0 <= i < Reps(p, u) ensures Bound(p.car, Items(u)[i], false, Peel(env, i)) {
      PeelRepresents(p, u, env, i);
      NoEllipsisInPeel(env, i);
    }
  }

  lemma PairIsBound(p: Value, u: Value, tail: bool, env: Env)
    requires p.Pair? && Fragment(p) && !Repeats(p) && Bound(p, u, tail, env)
    ensures u.Pair? && Bound(p.car, u.car, false, env) && Bound(p.cdr, u.cdr, true, env)
  {
    PairVars(p);
    forall v <- Vars(p.car) ensures Represents(Find(env, v).value, p.car, u.car) {
      assert v in Vars(p) && Represents(Find(env, v).value, p, u);
    }
    forall v <- Vars(p.cdr) ensures Represents(Find(env, v).value, p.cdr, u.cdr) {
      assert v in Vars(p) && v !in Vars(p.car) && Represents(Find(env, v).value, p, u);
    }
  }

  function Pieces(p: Value, env: Env): seq<Value>
    requires Fragment(p) && Repeats(p)
  {
    seq(Repetitions(p.car, env), i requires 0 <= i => Instantiate(p.car, Peel(env, i)))
  }

  lemma {:induction false} NoLonger(p: Value, u: Value, tail: bool, env: Env)
    requires Fragment(p) && Bound(p, u, tail, env)
    ensures |Items(Instantiate(p, env))| <= |Items(u)|
  {
    if p.Sym? {
      assert Represents(Find(env, p.base).value, p, u);
      DeepCopyIsEqual(u);
    } else if p.Pair? {
      if Repeats(p) {
        RepeatIsBound(p, u, tail, env);
        NoLonger(p.cdr.cdr, Tail(u, Reps(p, u)), true, env);
        ListItems(Pieces(p, env), Instantiate(p.cdr.cdr, env));
        ListItems(Items(u)[..Reps(p, u)], Tail(u, Reps(p, u)));
      } else {
        PairIsBound(p, u, tail, env);
        NoLonger(p.cdr, u.cdr, true, env);
      }
    }
  }

  lemma {:induction false} SameLists(xs: seq<Value>, ys: seq<Value>, e: Value, f: Value)
    requires |xs| == |ys|
    ensures List(xs, e) == List(ys, f) <==> xs == ys && e == f
  {
    if xs != [] {
      SameLists(xs[1..], ys[1..], e, f);
      assert xs == [xs[0]] + xs[1..] && ys == [ys[0]] + ys[1..];
    }
  }

  /** The pattern, instantiated with what it was bound to, is the form, unless
      an element was dropped. */
  lemma {:induction false} RebuildsIff(p: Value, u: Value, tail: bool, env: Env)
    requires Fragment(p) && Bound(p, u, tail, env)
    ensures Instantiate(p, env) == u <==> !Drops(p, u)
    decreases p, 1
  {
    hide Bound;
    match p
    case Pair(a, d) =>
      if Repeats(p) {
        RepeatRebuildsIff(p, u, tail, env);
      } else {
        PairIsBound(p, u, tail, env);
        RebuildsIff(a, u.car, false, env);
        RebuildsIff(d, u.cdr, true, env);
      }
    case _ =>
      LeafRebuilds(p, u, tail, env);
  }

  lemma LeafRebuilds(p: Value, u: Value, tail: bool, env: Env)
    requires Fragment(p) && Bound(p, u, tail, env) && !p.Pair?
    ensures Instantiate(p, env) == u
  {
    if p.Sym? {
      assert Represents(Find(env, p.base).value, p, u);
      DeepCopyIsEqual(u);
    }
  }

  lemma {:induction false} RepeatRebuildsIff(p: Value, u: Value, tail: bool, env: Env)
    requires Fragment(p) && Repeats(p) && Bound(p, u, tail, env)
    ensures Instantiate(p, env) == u <==> !Drops(p, u)
    decreases p, 0
  {
    hide Bound, Repetitions;
    var n := Reps(p, u);
    var rest, after := Instantiate(p.cdr.cdr, env), Tail(u, n);
    RepeatIsBound(p, u, tail, env);
    RebuildsIff(p.cdr.cdr, after, true, env);
    forall i | 0 <= i < n
      ensures Instantiate(p.car, Peel(env, i)) == Items(u)[i] <==> !Drops(p.car, Items(u)[i])
    {
      RebuildsIff(p.car, Items(u)[i], false, Peel(env, i));
    }
    var pieces, items := Pieces(p, env), Items(u)[..n];
    assert Instantiate(p, env) == List(pieces, rest);
    if |pieces| == n {
      SameLists(pieces, items, rest, after);
      assert pieces == items <==> forall i :: 0 <= i < n ==> pieces[i] == items[i];
    } else {
      NoLonger(p.cdr.cdr, after, true, env);
      ListItems(pieces, rest);
      ListItems(items, after);
    }
  }

  /** Match, then instantiate the pattern itself: the form comes back, exactly
      when no element was repeated more often than a template can repeat it. */
  lemma MatchThenInstantiateIff(p: Value, u: Value)
    requires Fragment(p) && |Vars(p)| <= BIND_MAX && Match(p, u, false, []).Some?
    ensures Instantiate(p, Match(p, u, false, []).value) == u <==> !Drops(p, u)
  {
    MatchBindsMeaning(p, u, false, []);
    var env := Match(p, u, false, []).value;
    VarsAreNoEllipsis(p);
    FindAny(env, ELLIPSIS);
    RebuildsIff(p, u, false, env);
  }

  lemma {:induction false} VarsAreNoEllipsis(p: Value)
    ensures ELLIPSIS !in Vars(p)
  {
    if p.Pair? {
      VarsAreNoEllipsis(p.car);
      VarsAreNoEllipsis(p.cdr);
    }
  }

  // ---- when nothing is dropped --------------------------------------------

  /** Every element before an ellipsis has a variable to count by. */
  predicate AllCounted(p: Value)
    requires Fragment(p)
  {
    p.Pair? ==>
      if Repeats(p) then Counted(p.car) && AllCounted(p.car) && AllCounted(p.cdr.cdr)
      else AllCounted(p.car) && AllCounted(p.cdr)
  }

  /** No list in the form is longer than ELLIPSIS_MAX. */
  predicate AllShort(u: Value) {
    u.Pair? ==> |Items(u)| <= ELLIPSIS_MAX && AllShort(u.car) && AllShort(u.cdr)
  }

  lemma {:induction false} ShortParts(u: Value, n: nat)
    requires AllShort(u) && n <= |Items(u)|
    ensures AllShort(Tail(u, n)) && forall i :: 0 <= i < n ==> AllShort(Items(u)[i])
  {
    if n > 0 {
      ShortParts(u.cdr, n - 1);
      assert forall i :: 0 < i < n ==> Items(u)[i] == Items(u.cdr)[i - 1];
    }
  }

  lemma {:induction false} CountedDropsNothing(p: Value, u: Value)
    requires Fragment(p) && AllCounted(p) && AllShort(u)
    ensures !Drops(p, u)
  {
    if p.Pair? {
      if Repeats(p) {
        ShortParts(u, Reps(p, u));
        forall i | 0 <= i < Reps(p, u) ensures !Drops(p.car, Items(u)[i]) {
          CountedDropsNothing(p.car, Items(u)[i]);
        }
        CountedDropsNothing(p.cdr.cdr, Tail(u, Reps(p, u)));
      } else if u.Pair? {
        CountedDropsNothing(p.car, u.car);
        CountedDropsNothing(p.cdr, u.cdr);
      }
    }
  }

  /** For patterns whose repeated elements all have a variable among their own
      elements, on forms with lists of at most ELLIPSIS_MAX, matching and
      instantiating are inverse. */
  lemma MatchThenInstantiateIsInverse(p: Value, u: Value)
    requires Fragment(p) && |Vars(p)| <= BIND_MAX && Match(p, u, false, []).Some?
    requires AllCounted(p) && AllShort(u)
    ensures Instantiate(p, Match(p, u, false, []).value) == u
  {
    CountedDropsNothing(p, u);
    MatchThenInstantiateIff(p, u);
  }

  // ---- the matcher finds every match ---------------------------------------

  ghost predicate HasRoom(env: Env, vars: set<nat>) {
    Distinct(env) && Names(env) !! vars && |env| + |vars| <= BIND_MAX
  }

  lemma NamesSize(env: Env)
    requires Distinct(env)
    ensures |Names(env)| == |env|
  {
    var bases := seq(|env|, i requires 0 <= i < |env| => env[i].base);
    ElemsSize(bases);
    forall v ensures v in Elems(bases) <==> v in Names(env) {
      if v in Names(env) {
        var i := IndexOf(env, v);
        assert bases[i] == v;
      }
    }
    assert Elems(bases) == Names(env);
  }

  /** Room for all variables is room for some, and then for the rest. */
  lemma RoomFor(env: Env, some: set<nat>, rest: set<nat>, all: set<nat>, e: Env)
    requires HasRoom(env, all) && some + rest <= all && some !! rest
    requires Distinct(e) && Names(e) == Names(env) + some
    ensures HasRoom(e, rest)
  {
    NamesSize(env);
    NamesSize(e);
    assert Names(env) !! some;
    assert |Names(e)| == |Names(env)| + |some|;
    assert |some + rest| == |some| + |rest|;
    SubsetSize(some + rest, all);
  }

  lemma RoomForPart(env: Env, some: set<nat>, all: set<nat>)
    requires HasRoom(env, all) && some <= all
    ensures HasRoom(env, some)
  {
    SubsetSize(some, all);
  }

  lemma {:induction false} PrebindSucceeds(env: Env, names: seq<nat>)
    requires NoRepeats(names) && HasRoom(env, Elems(names))
    ensures Prebind(env, names).Some?
  {
    if names != [] {
      var front, last := names[..|names| - 1], names[|names| - 1];
      assert Elems(names) == Elems(front) + {last};
      ElemsSize(names);
      ElemsSize(front);
      PrebindSucceeds(env, front);
      PrebindIs(env, front);
      FindAny(env + Fresh(front), last);
    }
  }

  lemma {:induction false} EachSucceeds(a: Value, items: seq<Value>, env: Env, base: nat)
    requires Fragment(a) && |Vars(a)| <= BIND_MAX
    requires forall x <- items :: Matches(a, x, false) && NoClash(a, x)
    ensures MatchEach(a, items, env, base).Some?
    decreases a, 3, |items|
  {
    if items != [] {
      var front, x := items[..|items| - 1], items[|items| - 1];
      assert x in items && forall y <- front :: y in items;
      EachSucceeds(a, front, env, base);
      MatchSucceeds(a, x, false, []);
    }
  }

  lemma {:induction false} MatchSucceeds(p: Value, u: Value, tail: bool, env: Env)
    requires Fragment(p) && HasRoom(env, Vars(p)) && Matches(p, u, tail) && NoClash(p, u)
    ensures Match(p, u, tail, env).Some?
    decreases p, 2, 0
  {
    match p
    case Sym(base, _) =>
      FindAny(env, base);
    case Pair(a, d) =>
      PairVars(p);
      if Repeats(p) {
        RepeatSucceeds(p, u, tail, env);
      } else {
        RoomForPart(env, Vars(a), Vars(p));
        MatchSucceeds(a, u.car, false, env);
        SubsetSize(Vars(a), Vars(p));
        MatchBindsMeaning(a, u.car, false, env);
        var e := Match(a, u.car, false, env).value;
        RoomFor(env, Vars(a), Vars(d), Vars(p), e);
        MatchSucceeds(d, u.cdr, true, e);
      }
    case _ =>
  }

  /** The variables of the element are prebound, each to the empty list. */
  lemma ElementPrebinds(p: Value, env: Env)
    requires Fragment(p) && Repeats(p) && HasRoom(env, Vars(p)) && Vars(p.car) <= Vars(p)
    ensures |Vars(p.car)| <= BIND_MAX && Prebind(env, Collect(p.car, [])).Some?
    ensures var e := Prebind(env, Collect(p.car, [])).value;
            && Distinct(e) && env <= e && Names(e) == Names(env) + Vars(p.car) && Names(env) !! Vars(p.car)
            && forall i :: |env| <= i < |e| ==> e[i].base in Vars(p.car) && e[i] == Binding(e[i].base, Nil, 1)
  {
    var names := Collect(p.car, []);
    assert Elems([]) + Vars(p.car) == Vars(p.car);
    RoomForPart(env, Vars(p.car), Vars(p));
    CollectsAll(p.car, []);
    PrebindSucceeds(env, names);
    PrebindIs(env, names);
    var e := Prebind(env, names).value;
    forall i | |env| <= i < |e| ensures e[i].base in Vars(p.car) && e[i] == Binding(e[i].base, Nil, 1) {
      assert e[i] == Fresh(names)[i - |env|];
      assert names[i - |env|] in Elems(names);
    }
  }

  lemma {:induction false} RepeatSucceeds(p: Value, u: Value, tail: bool, env: Env)
    requires Fragment(p) && Repeats(p) && HasRoom(env, Vars(p)) && Matches(p, u, tail) && NoClash(p, u)
    ensures Match(p, u, tail, env).Some?
    decreases p, 1, 0
  {
    hide Represents, Collected, HasRoom, Matches, NoClash, Collect, Prebind, Settle, Vars, Items, Distinct, Names, Find;
    var a, after := p.car, p.cdr.cdr;
    RepeatParts(p, u, tail);
    ElementPrebinds(p, env);
    var e := Prebind(env, Collect(a, [])).value;
    var items := Items(u)[..Reps(p, u)];
    EachSucceeds(a, items, e, |env|);
    EachBindsMeaning(a, items, e, |env|);
    var f := MatchEach(a, items, e, |env|).value;
    SettleIsRepresented(p, u, env, e, f);
    RoomFor(env, Vars(a), Vars(after), Vars(p), Settle(f, |env|));
    MatchSucceeds(after, Tail(u, Reps(p, u)), true, Settle(f, |env|));
  }

  lemma RepeatParts(p: Value, u: Value, tail: bool)
    requires Fragment(p) && Repeats(p) && Matches(p, u, tail) && NoClash(p, u)
    ensures RepFits(p, u) && Vars(p.car) !! Vars(p.cdr.cdr) && Vars(p) == Vars(p.car) + Vars(p.cdr.cdr)
    ensures forall x <- Items(u)[..Reps(p, u)] :: Matches(p.car, x, false) && NoClash(p.car, x)
    ensures Matches(p.cdr.cdr, Tail(u, Reps(p, u)), true) && NoClash(p.cdr.cdr, Tail(u, Reps(p, u)))
  {
    ProperList(u);
    assert Vars(p.cdr) == Vars(p.cdr.car) + Vars(p.cdr.cdr);
    forall x <- Items(u)[..Reps(p, u)] ensures Matches(p.car, x, false) && NoClash(p.car, x) {
      var i :| 0 <= i < Reps(p, u) && Items(u)[i] == x;
    }
  }

  /** The matcher succeeds exactly on the forms the pattern stands for, unless a
      variable is met twice. */
  lemma MatchSucceedsIff(p: Value, u: Value)
    requires Fragment(p) && |Vars(p)| <= BIND_MAX
    ensures Match(p, u, false, []).Some? <==> Matches(p, u, false) && NoClash(p, u)
  {
    if Match(p, u, false, []).Some? {
      MatchBindsMeaning(p, u, false, []);
    }
    if Matches(p, u, false) && NoClash(p, u) {
      MatchSucceeds(p, u, false, []);
    }
  }

  // ---- instantiating first ---------------------------------------------------

  /** Every variable has a value under as many ellipses as it stands under. */
  ghost predicate RightDepths(p: Value, env: Env)
    requires Fragment(p)
  {
    forall v <- Vars(p) :: Find(env, v).Some? && Find(env, v).value.ellipsis == Depth(p, v)
  }

  /** The variables of a repeated element have lists of one length, the one the
      template repeats it by; what follows an ellipsis comes out as long as it is in
      the pattern; and no variable is met twice. */
  ghost predicate Agrees(p: Value, tail: bool, env: Env)
    requires Fragment(p)
  {
    match p
    case Atom(_) => !tail
    case Pair(a, d) =>
      if Repeats(p) then
        && Vars(a) !! Vars(d.cdr) && ListLen(d.cdr) >= 0 && ListLen(Instantiate(d.cdr, env)) == ListLen(d.cdr)
        && (forall v <- Vars(a) :: Find(env, v).Some? && ListLen(Find(env, v).value.value) == Repetitions(a, env))
        && (forall i :: 0 <= i < Repetitions(a, env) ==> Agrees(a, false, Peel(env, i)))
        && Agrees(d.cdr, true, env)
      else
        Vars(a) !! Vars(d) && Agrees(a, false, env) && Agrees(d, true, env)
    case _ => true
  }

  ghost predicate Usable(p: Value, tail: bool, env: Env)
    requires Fragment(p)
  {
    Distinct(env) && Find(env, ELLIPSIS).None? && RightDepths(p, env) && Agrees(p, tail, env)
  }

  lemma {:induction false} NthIsItem(v: Value, i: nat)
    requires i < |Items(v)|
    ensures Nth(v, i) == Items(v)[i]
  {
    if i > 0 {
      NthIsItem(v.cdr, i - 1);
    }
  }

  /** A list whose i-th item is what the i-th piece means is what the pieces mean. */
  lemma ListOfMeanings(value: Value, means: seq<Value>, d: nat)
    requires ListLen(value) == |means|
    requires forall i :: 0 <= i < |means| ==> Nth(value, i) == means[i] && DepthOk(d, d, means[i])
    ensures value == List(means, Nil) && DepthOk(d + 1, d + 1, value)
  {
    ProperList(value);
    forall i | 0 <= i < |means| ensures Items(value)[i] == means[i] {
      NthIsItem(value, i);
    }
    assert Items(value) == means;
  }

  lemma PeelIsUsable(p: Value, tail: bool, env: Env, i: nat)
    requires Fragment(p) && Repeats(p) && Usable(p, tail, env) && i < Repetitions(p.car, env)
    ensures Usable(p.car, false, Peel(env, i))
    ensures forall v <- Vars(p.car) ::
              && Find(env, v).Some? && Find(Peel(env, i), v) == Some(Binding(v, Nth(Find(env, v).value.value, i), Depth(p.car, v)))
  {
    var q := Peel(env, i);
    NoEllipsisInPeel(env, i);
    hide Agrees;
    forall v <- Vars(p.car)
      ensures Find(env, v).Some? && Find(q, v) == Some(Binding(v, Nth(Find(env, v).value.value, i), Depth(p.car, v)))
    {
      assert v in Vars(p) && Depth(p, v) == Depth(p.car, v) + 1;
      FindAny(env, v);
      var k := IndexOf(env, v);
      FindAt(env, k);
      FindAt(q, k);
    }
    AgreesInside(p, tail, env, i);
  }

  lemma AgreesInside(p: Value, tail: bool, env: Env, i: nat)
    requires Fragment(p) && Repeats(p) && Agrees(p, tail, env) && i < Repetitions(p.car, env)
    ensures Agrees(p.car, false, Peel(env, i))
  {
  }

  lemma PartsAreUsable(p: Value, tail: bool, env: Env)
    requires p.Pair? && Fragment(p) && Usable(p, tail, env)
    ensures !Repeats(p) ==> Usable(p.car, false, env) && Usable(p.cdr, true, env)
    ensures Repeats(p) ==> Usable(p.cdr.cdr, true, env)
  {
    if Repeats(p) {
      assert Vars(p.cdr) == Vars(p.cdr.car) + Vars(p.cdr.cdr);
      forall v <- Vars(p.cdr.cdr) ensures Find(env, v).Some? && Find(env, v).value.ellipsis == Depth(p.cdr.cdr, v) {
        assert v in Vars(p) && v !in Vars(p.car);
      }
    } else {
      forall v <- Vars(p.car) ensures Find(env, v).Some? && Find(env, v).value.ellipsis == Depth(p.car, v) {
        assert v in Vars(p);
      }
      forall v <- Vars(p.cdr) ensures Find(env, v).Some? && Find(env, v).value.ellipsis == Depth(p.cdr, v) {
        assert v in Vars(p) && v !in Vars(p.car);
      }
    }
  }

  /** The pattern stands for its own instance, and each variable for its value. */
  lemma {:induction false} InstanceIsBound(p: Value, tail: bool, env: Env)
    requires Fragment(p) && Usable(p, tail, env)
    ensures Bound(p, Instantiate(p, env), tail, env)
    decreases p, 1
  {
    match p
    case Sym(base, _) =>
      FindAny(env, base);
      assert base in Vars(p);
      DeepCopyIsEqual(Find(env, base).value.value);
    case Pair(a, d) =>
      PartsAreUsable(p, tail, env);
      hide Usable;
      if Repeats(p) {
        RepeatInstanceIsBound(p, tail, env);
      } else {
        InstanceIsBound(a, false, env);
        InstanceIsBound(d, true, env);
        PairInstanceIsBound(p, tail, env);
      }
    case _ =>
  }

  lemma PairInstanceIsBound(p: Value, tail: bool, env: Env)
    requires p.Pair? && Fragment(p) && !Repeats(p) && Usable(p, tail, env)
    requires Bound(p.car, Instantiate(p.car, env), false, env) && Bound(p.cdr, Instantiate(p.cdr, env), true, env)
    ensures Bound(p, Instantiate(p, env), tail, env)
  {
    var x, y := Instantiate(p.car, env), Instantiate(p.cdr, env);
    var u := Pair(x, y);
    forall v <- Vars(p) ensures Find(env, v).Some? && Find(env, v).value.base == v && Represents(Find(env, v).value, p, u) {
      if v in Vars(p.car) {
        assert Represents(Find(env, v).value, p.car, x);
      } else {
        assert Represents(Find(env, v).value, p.cdr, y);
      }
    }
  }

  lemma {:induction false} RepeatInstanceIsBound(p: Value, tail: bool, env: Env)
    requires Fragment(p) && Repeats(p) && Usable(p, tail, env) && Usable(p.cdr.cdr, true, env)
    ensures Bound(p, Instantiate(p, env), tail, env)
    decreases p, 0
  {
    var n, pieces, rest := Repetitions(p.car, env), Pieces(p, env), Instantiate(p.cdr.cdr, env);
    var u := List(pieces, rest);
    ListItems(pieces, rest);
    assert Items(u)[..n] == pieces && RepCount(p, u) == n && Reps(p, u) == n && Tail(u, n) == rest;
    hide Instantiate, Repetitions, Usable, Agrees;
    InstanceIsBound(p.cdr.cdr, true, env);
    forall i | 0 <= i < n ensures Bound(p.car, pieces[i], false, Peel(env, i)) {
      PeelIsUsable(p, tail, env, i);
      InstanceIsBound(p.car, false, Peel(env, i));
    }
    RepeatJoins(p, tail, env, u, n, pieces, rest);
  }

  lemma RepeatJoins(p: Value, tail: bool, env: Env, u: Value, n: nat, pieces: seq<Value>, rest: Value)
    requires Fragment(p) && Repeats(p) && Usable(p, tail, env) && n == Repetitions(p.car, env) == |pieces|
    requires RepFits(p, u) && RepCount(p, u) == Reps(p, u) == n && Items(u)[..n] == pieces && Tail(u, n) == rest
    requires Bound(p.cdr.cdr, rest, true, env)
    requires forall i :: 0 <= i < n ==> Bound(p.car, pieces[i], false, Peel(env, i))
    ensures Bound(p, u, tail, env)
  {
    hide Repetitions;
    forall i | 0 <= i < n ensures Items(u)[i] == pieces[i] { assert Items(u)[..n][i] == pieces[i]; }
    forall v <- Vars(p) ensures Find(env, v).Some? && Find(env, v).value.base == v && Represents(Find(env, v).value, p, u) {
      FindAny(env, v);
      if v in Vars(p.car) {
        RepeatedValue(p, tail, env, u, n, pieces, v);
      } else {
        assert v in Vars(p.cdr) && Vars(p.cdr) == Vars(p.cdr.car) + Vars(p.cdr.cdr);
        assert Represents(Find(env, v).value, p.cdr.cdr, rest);
      }
    }
  }

  lemma RepeatedItem(p: Value, tail: bool, env: Env, pieces: seq<Value>, i: nat, v: nat)
    requires Fragment(p) && Repeats(p) && Usable(p, tail, env) && i < Repetitions(p.car, env) == |pieces| && v in Vars(p.car)
    requires Bound(p.car, pieces[i], false, Peel(env, i))
    ensures Find(env, v).Some? && Nth(Find(env, v).value.value, i) == Meaning(p.car, pieces[i], v)
    ensures DepthOk(Depth(p.car, v), Depth(p.car, v), Meaning(p.car, pieces[i], v))
  {
    PeelIsUsable(p, tail, env, i);
    hide Meaning, Depth, DepthOk, Usable, Peel, Repetitions, Vars, Matches, NoClash, Distinct;
    assert AllRepresented(Peel(env, i), p.car, pieces[i]);
    assert Represents(Find(Peel(env, i), v).value, p.car, pieces[i]);
  }

  lemma RepeatedLength(p: Value, tail: bool, env: Env, v: nat)
    requires Fragment(p) && Repeats(p) && Usable(p, tail, env) && v in Vars(p.car)
    ensures Find(env, v).Some? && Find(env, v).value.base == v
    ensures Find(env, v).value.ellipsis == Depth(p.car, v) + 1 && ListLen(Find(env, v).value.value) == Repetitions(p.car, env)
  {
    assert v in Vars(p);
    FindAny(env, v);
  }

  lemma RepeatedValue(p: Value, tail: bool, env: Env, u: Value, n: nat, pieces: seq<Value>, v: nat)
    requires Fragment(p) && Repeats(p) && Usable(p, tail, env) && n == Repetitions(p.car, env) == |pieces| && v in Vars(p.car)
    requires Reps(p, u) == n && Items(u)[..n] == pieces
    requires forall i :: 0 <= i < n ==> Bound(p.car, pieces[i], false, Peel(env, i))
    ensures Find(env, v).Some? && Represents(Find(env, v).value, p, u)
  {
    RepeatedLength(p, tail, env, v);
    RepeatMeaning(p, u, v);
    hide Usable, Bound, Meaning, Depth, DepthOk, Repetitions, Vars, Peel, Reps, Fragment;
    var value, means := Find(env, v).value.value, Meanings(p.car, pieces, v);
    forall i | 0 <= i < n ensures Nth(value, i) == means[i] && DepthOk(Depth(p.car, v), Depth(p.car, v), means[i]) {
      RepeatedItem(p, tail, env, pieces, i, v);
    }
    ListOfMeanings(value, means, Depth(p.car, v));
  }

  /** Instantiate, then match: from any environment of the right depths whose lists
      agree, every variable gets back what it had. */
  lemma InstantiateThenMatchIsInverse(p: Value, env: Env)
    requires Fragment(p) && |Vars(p)| <= BIND_MAX && Distinct(env) && Find(env, ELLIPSIS).None?
    requires RightDepths(p, env) && Agrees(p, false, env)
    ensures Match(p, Instantiate(p, env), false, []).Some?
    ensures forall v <- Vars(p) ::
              && Find(Match(p, Instantiate(p, env), false, []).value, v).Some? && Find(env, v).Some?
              && Find(Match(p, Instantiate(p, env), false, []).value, v).value.value == Find(env, v).value.value
  {
    var u := Instantiate(p, env);
    InstanceIsBound(p, false, env);
    hide Agrees, RightDepths, Instantiate, Match;
    MatchSucceeds(p, u, false, []);
    MatchBindsMeaning(p, u, false, []);
    var r := Match(p, u, false, []).value;
    forall v <- Vars(p)
      ensures Find(r, v).Some? && Find(env, v).Some? && Find(r, v).value.value == Find(env, v).value.value
    {
      assert Represents(Find(r, v).value, p, u) && Represents(Find(env, v).value, p, u);
    }
  }

  /** ((1 . x) ...) on ((1 . 2)): the variable is in a dotted tail, where a
      template does not count, and the form does not come back. */
  lemma DottedTailIsDropped(x: nat, m: nat, one: Value, two: Value)
    requires x > SYNTAX_RULES && one.Atom? && two.Atom?
    ensures var p := Pair(Pair(one, Sym(x, m)), Pair(Sym(ELLIPSIS, 0), Nil));
            var u := Pair(Pair(one, two), Nil);
            Fragment(p) && Match(p, u, false, []).Some? && Instantiate(p, Match(p, u, false, []).value) != u
  {
    hide Match, Instantiate;
    var a := Pair(one, Sym(x, m));
    var p := Pair(a, Pair(Sym(ELLIPSIS, 0), Nil));
    var u := Pair(Pair(one, two), Nil);
    assert Fragment(one) && Fragment(Sym(x, m));
    assert Fragment(a) && Fragment(p.cdr.cdr);
    assert Vars(one) == {} && Vars(Sym(x, m)) == {x} && Vars(p.cdr) == {};
    assert Vars(p) == Vars(a) == {x};
    assert Items(u) == [Pair(one, two)] && Tail(u, 1) == Tail(u.cdr, 0) == Nil;
    assert ListLen(p.cdr.cdr) == 0 && RepCount(p, u) == 1;
    assert Matches(a, Items(u)[0], false) && NoClash(a, Items(u)[0]);
    MatchSucceedsIff(p, u);
    assert !Counted(a) && Drops(p, u);
    MatchThenInstantiateIff(p, u);
  }
}
