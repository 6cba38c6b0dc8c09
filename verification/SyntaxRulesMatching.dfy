/** The matcher binds every variable of a pattern to what it stands for. */
module SyntaxRulesMatching {
  import opened SyntaxRules

  // ---- lists --------------------------------------------------------------

  lemma {:induction false} ProperList(v: Value)
    requires ListLen(v) >= 0
    ensures ListLen(v) == |Items(v)| && v == List(Items(v), Nil)
  {
    if v.Pair? {
      ProperList(v.cdr);
    }
  }

  lemma {:induction false} TailSplits(v: Value, n: nat)
    requires n <= |Items(v)|
    ensures Items(Tail(v, n)) == Items(v)[n..]
    ensures v == List(Items(v)[..n], Tail(v, n))
    ensures ListLen(v) >= 0 ==> ListLen(Tail(v, n)) == ListLen(v) - n
  {
    if n > 0 {
      TailSplits(v.cdr, n - 1);
      assert Items(v)[..n][1..] == Items(v.cdr)[..n - 1];
    } else {
      assert List(Items(v)[..0], v) == v;
    }
  }

  lemma {:induction false} ListItems(xs: seq<Value>, end: Value)
    ensures Items(List(xs, end)) == xs + Items(end)
    ensures ListLen(List(xs, end)) == if ListLen(end) < 0 then -1 else |xs| + ListLen(end)
    ensures Tail(List(xs, end), |xs|) == end
  {
    if xs != [] {
      ListItems(xs[1..], end);
      assert Items(List(xs, end)) == [xs[0]] + (xs[1..] + Items(end));
    }
  }

  lemma {:induction false} NthOfList(xs: seq<Value>, end: Value, i: nat)
    requires i < |xs|
    ensures Nth(List(xs, end), i) == xs[i]
  {
    if i > 0 {
      NthOfList(xs[1..], end, i - 1);
    }
  }

  /** A list built by putting each item in front. */
  function Stacked(xs: seq<Value>): Value {
    if xs == [] then Nil else Pair(xs[|xs| - 1], Stacked(xs[..|xs| - 1]))
  }

  lemma {:induction false} ReverseStacked(xs: seq<Value>, ys: seq<Value>)
    ensures ReverseOnto(Stacked(xs), List(ys, Nil)) == List(xs + ys, Nil)
  {
    if xs == [] {
      assert xs + ys == ys;
    } else {
      var front, last := xs[..|xs| - 1], xs[|xs| - 1];
      ReverseStacked(front, [last] + ys);
      assert front + ([last] + ys) == xs + ys;
      assert ([last] + ys)[1..] == ys;
    }
  }

  // ---- bindings -----------------------------------------------------------

  ghost function Names(env: Env): set<nat> {
    set b <- env :: b.base
  }

  ghost predicate Distinct(env: Env) {
    forall i, j :: 0 <= i < j < |env| ==> env[i].base != env[j].base
  }

  lemma {:induction false} FindAny(env: Env, v: nat)
    ensures Find(env, v).Some? <==> v in Names(env)
    ensures Find(env, v).Some? ==> Find(env, v).value in env && Find(env, v).value.base == v
  {
    if env != [] && env[0].base != v {
      FindAny(env[1..], v);
      assert env == [env[0]] + env[1..];
    }
  }

  lemma {:induction false} FindAt(env: Env, i: nat)
    requires Distinct(env) && i < |env|
    ensures Find(env, env[i].base) == Some(env[i])
  {
    if i > 0 {
      FindAt(env[1..], i - 1);
    }
  }

  lemma {:induction false} FindPrefix(env: Env, more: Env, v: nat)
    requires v in Names(env)
    ensures Find(env + more, v) == Find(env, v)
  {
    if env[0].base != v {
      assert env == [env[0]] + env[1..];
      assert (env + more)[1..] == env[1..] + more;
      FindPrefix(env[1..], more, v);
    }
  }

  lemma BindVarIs(env: Env, v: nat, u: Value)
    requires Distinct(env) && BindVar(env, v, u).Some?
    ensures v !in Names(env) && Distinct(env + [Binding(v, u, 0)])
    ensures Names(env + [Binding(v, u, 0)]) == Names(env) + {v}
    ensures Find(env + [Binding(v, u, 0)], v) == Some(Binding(v, u, 0))
  {
    FindAny(env, v);
    var e := env + [Binding(v, u, 0)];
    assert forall b <- env :: b in e;
    assert e[|env|].base == v;
    FindAt(e, |env|);
  }

  // ---- collecting variables -----------------------------------------------

  ghost function Elems(names: seq<nat>): set<nat> {
    set x <- names
  }

  ghost predicate NoRepeats(names: seq<nat>) {
    forall i, j :: 0 <= i < j < |names| ==> names[i] != names[j]
  }

  lemma SubsetSize(a: set<nat>, b: set<nat>)
    requires a <= b
    ensures |a| <= |b|
  {
    assert b == a + (b - a);
  }

  lemma {:induction false} ElemsSize(names: seq<nat>)
    requires NoRepeats(names)
    ensures |Elems(names)| == |names|
  {
    if names != [] {
      var front, last := names[..|names| - 1], names[|names| - 1];
      ElemsSize(front);
      assert Elems(names) == Elems(front) + {last};
    }
  }

  lemma CollectsName(p: Value, names: seq<nat>)
    requires p.Sym? && NoRepeats(names) && |Elems(names) + Vars(p)| <= BIND_MAX
    ensures NoRepeats(Collect(p, names))
    ensures Elems(Collect(p, names)) == Elems(names) + Vars(p)
  {
    var base := p.base;
    if base != UNDERSCORE && base != ELLIPSIS && base !in names {
      ElemsSize(names);
      assert Vars(p) == {base} && base !in Elems(names);
      assert |Elems(names) + {base}| == |names| + 1;
      assert Elems(names + [base]) == Elems(names) + {base};
    }
  }

  lemma {:induction false} CollectsAll(p: Value, names: seq<nat>)
    requires NoRepeats(names) && |Elems(names) + Vars(p)| <= BIND_MAX
    ensures NoRepeats(Collect(p, names))
    ensures Elems(Collect(p, names)) == Elems(names) + Vars(p)
  {
    hide NoRepeats, Elems;
    match p
    case Sym(_, _) =>
      CollectsName(p, names);
    case Pair(a, d) =>
      SubsetSize(Elems(names) + Vars(a), Elems(names) + Vars(p));
      CollectsAll(a, names);
      assert Elems(Collect(a, names)) + Vars(d) == Elems(names) + Vars(p);
      CollectsAll(d, Collect(a, names));
    case _ =>
  }

  function Fresh(names: seq<nat>): Env {
    seq(|names|, i requires 0 <= i < |names| => Binding(names[i], Nil, 1))
  }

  lemma {:induction false} PrebindIs(env: Env, names: seq<nat>)
    requires Distinct(env) && Prebind(env, names).Some?
    ensures var e := Prebind(env, names).value;
            && e == env + Fresh(names) && Distinct(e)
            && Names(e) == Names(env) + Elems(names)
            && Names(env) !! Elems(names)
  {
    if names == [] {
      assert env + Fresh(names) == env;
    } else {
      var front, last := names[..|names| - 1], names[|names| - 1];
      PrebindIs(env, front);
      var e := Prebind(env, front).value;
      FindAny(e, last);
      assert env + Fresh(names) == e + [Binding(last, Nil, 1)];
      assert Elems(names) == Elems(front) + {last};
      NamesAppend(e, [Binding(last, Nil, 1)]);
    }
  }

  lemma NamesAppend(a: Env, b: Env)
    ensures Names(a + b) == Names(a) + Names(b)
  {
    forall v | v in Names(a) + Names(b) ensures v in Names(a + b) {
      if v in Names(a) {
        var x :| x in a && x.base == v;
        assert x in a + b;
      } else {
        var x :| x in b && x.base == v;
        assert x in a + b;
      }
    }
  }

  // ---- ellipsis depth -----------------------------------------------------

  /** The depth a binding records may fall short of the true depth, where the
      lists end early. */
  ghost predicate DepthOk(e: nat, d: nat, x: Value)
    decreases d
  {
    e <= d && if d == 0 then e == 0 else e >= 1 && forall y <- Items(x) :: DepthOk(e - 1, d - 1, y)
  }

  lemma {:induction false} DepthMayGrow(e: nat, more: nat, d: nat, x: Value)
    requires DepthOk(e, d, x) && e <= more <= d
    ensures DepthOk(more, d, x)
    decreases d
  {
    if d > 0 {
      forall y <- Items(x) ensures DepthOk(more - 1, d - 1, y) {
        DepthMayGrow(e - 1, more - 1, d - 1, y);
      }
    }
  }

  // ---- the matcher is right -----------------------------------------------

  /** The binding of one variable says what the variable stands for. */
  ghost predicate Represents(b: Binding, p: Value, u: Value)
    requires Fragment(p)
  {
    b.value == Meaning(p, u, b.base) && DepthOk(b.ellipsis, Depth(p, b.base), b.value)
  }

  ghost predicate AllRepresented(env: Env, p: Value, u: Value)
    requires Fragment(p)
  {
    forall v <- Vars(p) :: Find(env, v).Some? && Find(env, v).value.base == v && Represents(Find(env, v).value, p, u)
  }

  /** What a binding has collected after some items. */
  ghost predicate Collected(b: Binding, a: Value, items: seq<Value>)
    requires Fragment(a)
  {
    && b.value == Stacked(Meanings(a, items, b.base))
    && 1 <= b.ellipsis <= Depth(a, b.base) + 1
    && forall x <- items :: DepthOk(b.ellipsis - 1, Depth(a, b.base), Meaning(a, x, b.base)) || items == []
  }

  ghost function Meanings(a: Value, items: seq<Value>, v: nat): seq<Value>
    requires Fragment(a)
  {
    seq(|items|, i requires 0 <= i < |items| => Meaning(a, items[i], v))
  }

  lemma GatherCollects(b: Binding, a: Value, items: seq<Value>, x: Value, sub: Env)
    requires Fragment(a) && Collected(b, a, items) && b.base in Vars(a)
    requires AllRepresented(sub, a, x)
    ensures Collected(Gather(b, sub), a, items + [x])
  {
    var v := b.base;
    var s := Find(sub, v).value;
    var c := Gather(b, sub);
    assert Meanings(a, items + [x], v)[..|items|] == Meanings(a, items, v);
    assert Represents(s, a, x);
    hide Meaning, Depth, DepthOk, Vars;
    forall y <- items + [x] ensures DepthOk(c.ellipsis - 1, Depth(a, v), Meaning(a, y, v)) {
      if y in items {
        DepthMayGrow(b.ellipsis - 1, c.ellipsis - 1, Depth(a, v), Meaning(a, y, v));
      } else {
        DepthMayGrow(s.ellipsis, c.ellipsis - 1, Depth(a, v), Meaning(a, y, v));
      }
    }
  }

  lemma RepeatMeaning(p: Value, u: Value, v: nat)
    requires Fragment(p) && Repeats(p) && v in Vars(p.car)
    ensures Meaning(p, u, v) == List(Meanings(p.car, Items(u)[..Reps(p, u)], v), Nil)
    ensures Depth(p, v) == Depth(p.car, v) + 1
  {
    assert Meanings(p.car, Items(u)[..Reps(p, u)], v)
        == seq(Reps(p, u), i requires 0 <= i < Reps(p, u) => Meaning(p.car, Items(u)[i], v));
  }

  lemma ListDepth(e: nat, d: nat, xs: seq<Value>)
    requires 1 <= e <= d && forall i :: 0 <= i < |xs| ==> DepthOk(e - 1, d - 1, xs[i])
    ensures DepthOk(e, d, List(xs, Nil))
  {
    ListItems(xs, Nil);
    assert Items(List(xs, Nil)) == xs;
  }

  lemma ReverseStackedIsList(xs: seq<Value>)
    ensures Reverse(Stacked(xs)) == List(xs, Nil)
  {
    ReverseStacked(xs, []);
    assert xs + [] == xs;
  }

  lemma SettledRepresents(b: Binding, p: Value, u: Value)
    requires Fragment(p) && Repeats(p) && b.base in Vars(p.car)
    requires Collected(b, p.car, Items(u)[..Reps(p, u)])
    ensures Represents(b.(value := Reverse(b.value)), p, u)
  {
    hide Meaning, Depth, DepthOk, Reverse, Stacked, List;
    var items := Items(u)[..Reps(p, u)];
    var means := Meanings(p.car, items, b.base);
    RepeatMeaning(p, u, b.base);
    ReverseStackedIsList(means);
    forall i | 0 <= i < |means| ensures DepthOk(b.ellipsis - 1, Depth(p.car, b.base), means[i]) {
      assert items[i] in items;
    }
    ListDepth(b.ellipsis, Depth(p.car, b.base) + 1, means);
  }

  ghost predicate Extended(env: Env, p: Value, u: Value, tail: bool, r: Env)
    requires Fragment(p)
  {
    && Matches(p, u, tail) && NoClash(p, u)
    && Distinct(r) && env <= r
    && Names(r) == Names(env) + Vars(p) && Names(env) !! Vars(p)
    && AllRepresented(r, p, u)
  }

  /** One item each: what has been collected, and where. */
  ghost predicate Gathered(env: Env, base: nat, a: Value, items: seq<Value>, r: Env)
    requires Fragment(a)
  {
    && |r| == |env| && base <= |env| && r[..base] == env[..base]
    && (forall x <- items :: Matches(a, x, false) && NoClash(a, x))
    && forall i :: base <= i < |env| ==> r[i].base == env[i].base && Collected(r[i], a, items)
  }

  /** A successful match is a match, and binds every variable of the pattern to
      what it stands for. */
  lemma {:induction false} MatchBindsMeaning(p: Value, u: Value, tail: bool, env: Env)
    requires Fragment(p) && Distinct(env) && |Vars(p)| <= BIND_MAX
    requires Match(p, u, tail, env).Some?
    ensures Extended(env, p, u, tail, Match(p, u, tail, env).value)
    decreases p, 2, 0
  {
    hide Extended, Vars, BindVar, Matches, NoClash;
    match p
    case Sym(_, _) =>
      LeafIsExtended(p, u, tail, env);
    case Pair(a, d) =>
      PairVars(p);
      SubsetSize(Vars(a), Vars(p));
      if Repeats(p) {
        RepeatBindsMeaning(p, u, tail, env);
      } else {
        SubsetSize(Vars(d), Vars(p));
        MatchBindsMeaning(a, u.car, false, env);
        var e := Match(a, u.car, false, env).value;
        ExtendedIsDistinct(env, a, u.car, false, e);
        MatchBindsMeaning(d, u.cdr, true, e);
        PairIsExtended(p, u, tail, env, e, Match(d, u.cdr, true, e).value);
      }
    case _ =>
      LeafIsExtended(p, u, tail, env);
  }

  lemma PairVars(p: Value)
    requires p.Pair?
    ensures Vars(p) == Vars(p.car) + Vars(p.cdr)
  {
  }

  lemma ExtendedIsDistinct(env: Env, p: Value, u: Value, tail: bool, r: Env)
    requires Fragment(p) && Extended(env, p, u, tail, r)
    ensures Distinct(r)
  {
  }

  lemma LeafIsExtended(p: Value, u: Value, tail: bool, env: Env)
    requires Fragment(p) && Distinct(env) && !p.Pair? && Match(p, u, tail, env).Some?
    ensures Extended(env, p, u, tail, Match(p, u, tail, env).value)
  {
    if p.Sym? {
      BindVarIs(env, p.base, u);
    }
  }

  lemma PairIsExtended(p: Value, u: Value, tail: bool, env: Env, e: Env, r: Env)
    requires p.Pair? && !Repeats(p) && Fragment(p) && u.Pair?
    requires Extended(env, p.car, u.car, false, e) && Extended(e, p.cdr, u.cdr, true, r)
    ensures Extended(env, p, u, tail, r)
  {
    assert env <= r;
    forall v <- Vars(p)
      ensures Find(r, v).Some? && Find(r, v).value.base == v && Represents(Find(r, v).value, p, u)
    {
      if v in Vars(p.car) {
        FindPrefix(e, r[|e|..], v);
        assert e + r[|e|..] == r;
      }
    }
  }

  lemma OneMoreGathered(env: Env, base: nat, a: Value, front: seq<Value>, x: Value, e: Env, sub: Env)
    requires Fragment(a) && Gathered(env, base, a, front, e) && Extended([], a, x, false, sub)
    requires forall i :: base <= i < |env| ==> env[i].base in Vars(a)
    ensures Gathered(env, base, a, front + [x], GatherAll(e, base, sub))
  {
    hide Collected, AllRepresented, Vars;
    var r := GatherAll(e, base, sub);
    forall i | base <= i < |env| ensures r[i].base == env[i].base && Collected(r[i], a, front + [x]) {
      GatherCollects(e[i], a, front, x, sub);
    }
    assert r[..base] == e[..base];
  }

  lemma NothingGathered(env: Env, base: nat, a: Value)
    requires Fragment(a) && base <= |env|
    requires forall i :: base <= i < |env| ==> env[i] == Binding(env[i].base, Nil, 1)
    ensures Gathered(env, base, a, [], env)
  {
  }

  lemma {:induction false} EachBindsMeaning(a: Value, items: seq<Value>, env: Env, base: nat)
    requires Fragment(a) && |Vars(a)| <= BIND_MAX && base <= |env|
    requires forall i :: base <= i < |env| ==> env[i].base in Vars(a) && env[i] == Binding(env[i].base, Nil, 1)
    requires MatchEach(a, items, env, base).Some?
    ensures Gathered(env, base, a, items, MatchEach(a, items, env, base).value)
    decreases a, 3, |items|
  {
    hide Gathered, Extended, GatherAll, Vars, Match;
    if items == [] {
      NothingGathered(env, base, a);
    } else {
      var front, x := items[..|items| - 1], items[|items| - 1];
      EachBindsMeaning(a, front, env, base);
      var e := MatchEach(a, front, env, base).value;
      MatchBindsMeaning(a, x, false, []);
      OneMoreGathered(env, base, a, front, x, e, Match(a, x, false, []).value);
      assert items == front + [x];
    }
  }

  lemma {:induction false} RepeatBindsMeaning(p: Value, u: Value, tail: bool, env: Env)
    requires Fragment(p) && Repeats(p) && Distinct(env) && |Vars(p)| <= BIND_MAX
    requires Match(p, u, tail, env).Some?
    ensures Extended(env, p, u, tail, Match(p, u, tail, env).value)
    decreases p, 1, 0
  {
    var a, after := p.car, p.cdr.cdr;
    SubsetSize(Vars(a), Vars(p));
    SubsetSize(Vars(after), Vars(p));
    var names := Collect(a, []);
    assert Elems([]) + Vars(a) == Vars(a);
    CollectsAll(a, []);
    PrebindIs(env, names);
    var e := Prebind(env, names).value;
    var items := Items(u)[..Reps(p, u)];
    forall i | |env| <= i < |e| ensures e[i].base in Vars(a) && e[i] == Binding(e[i].base, Nil, 1) {
      assert e[i] == Fresh(names)[i - |env|];
      assert names[i - |env|] in Elems(names);
    }
    EachBindsMeaning(a, items, e, |env|);
    var f := MatchEach(a, items, e, |env|).value;
    var g := Settle(f, |env|);
    SettleIsRepresented(p, u, env, e, f);
    MatchBindsMeaning(after, Tail(u, Reps(p, u)), true, g);
    RepeatIsExtended(p, u, tail, env, g, Match(after, Tail(u, Reps(p, u)), true, g).value);
  }

  lemma SettleKeepsNames(env: Env, e: Env, f: Env)
    requires env <= e && |f| == |e| && f[..|env|] == e[..|env|] && Distinct(e)
    requires forall i :: |env| <= i < |e| ==> f[i].base == e[i].base
    ensures var g := Settle(f, |env|); env <= g && Distinct(g) && Names(g) == Names(e)
  {
    var g := Settle(f, |env|);
    assert forall i :: 0 <= i < |g| ==> g[i].base == e[i].base by {
      forall i | 0 <= i < |g| ensures g[i].base == e[i].base {
        if i < |env| {
          assert f[i] == f[..|env|][i] == e[..|env|][i];
        }
      }
    }
    assert g[..|env|] == e[..|env|] by {
      assert f[..|env|] == e[..|env|];
    }
    SameNames(e, g);
  }

  lemma SettleIsRepresented(p: Value, u: Value, env: Env, e: Env, f: Env)
    requires Fragment(p) && Repeats(p) && Distinct(e) && env <= e
    requires Names(e) == Names(env) + Vars(p.car) && Names(env) !! Vars(p.car)
    requires forall i :: |env| <= i < |e| ==> e[i].base in Vars(p.car)
    requires Gathered(e, |env|, p.car, Items(u)[..Reps(p, u)], f)
    ensures var g := Settle(f, |env|);
            && env <= g && Distinct(g) && Names(g) == Names(env) + Vars(p.car)
            && forall v <- Vars(p.car) :: Find(g, v).Some? && Find(g, v).value.base == v
                                          && Represents(Find(g, v).value, p, u)
  {
    var g := Settle(f, |env|);
    SettleKeepsNames(env, e, f);
    forall j | 0 <= j < |env| ensures g[j].base in Names(env) {
      assert g[j] == env[j] && env[j] in env;
    }
    hide Represents, Collected, Distinct;
    forall v <- Vars(p.car)
      ensures Find(g, v).Some? && Find(g, v).value.base == v && Represents(Find(g, v).value, p, u)
    {
      var i := IndexOf(g, v);
      SettledRepresents(f[i], p, u);
      FindAt(g, i);
    }
  }

  lemma IndexOf(env: Env, v: nat) returns (i: nat)
    requires v in Names(env)
    ensures i < |env| && env[i].base == v
  {
    var b :| b in env && b.base == v;
    i :| 0 <= i < |env| && env[i] == b;
  }

  lemma SameNames(e: Env, g: Env)
    requires |g| == |e| && forall i :: 0 <= i < |g| ==> g[i].base == e[i].base
    ensures Names(g) == Names(e)
  {
    forall v ensures v in Names(g) <==> v in Names(e) {
      if v in Names(g) {
        var i :| 0 <= i < |g| && g[i].base == v;
        assert e[i] in e;
      }
      if v in Names(e) {
        var i :| 0 <= i < |e| && e[i].base == v;
        assert g[i] in g;
      }
    }
  }

  lemma RepeatIsExtended(p: Value, u: Value, tail: bool, env: Env, g: Env, r: Env)
    requires Fragment(p) && Repeats(p) && RepFits(p, u)
    requires forall x <- Items(u)[..Reps(p, u)] :: Matches(p.car, x, false) && NoClash(p.car, x)
    requires env <= g && Names(g) == Names(env) + Vars(p.car) && Names(env) !! Vars(p.car)
    requires forall v <- Vars(p.car) :: Find(g, v).Some? && Find(g, v).value.base == v
                                        && Represents(Find(g, v).value, p, u)
    requires Extended(g, p.cdr.cdr, Tail(u, Reps(p, u)), true, r)
    ensures Extended(env, p, u, tail, r)
  {
    ProperList(u);
    assert Reps(p, u) == RepCount(p, u);
    var items := Items(u)[..Reps(p, u)];
    assert forall i | 0 <= i < RepCount(p, u) && i < |Items(u)| :: Items(u)[i] == items[i] && items[i] in items;
    assert env <= r;
    assert Vars(p.cdr) == Vars(p.cdr.car) + Vars(p.cdr.cdr);
    forall v <- Vars(p)
      ensures Find(r, v).Some? && Find(r, v).value.base == v && Represents(Find(r, v).value, p, u)
    {
      if v in Vars(p.car) {
        FindPrefix(g, r[|g|..], v);
        assert g + r[|g|..] == r;
      } else {
        assert Represents(Find(r, v).value, p.cdr.cdr, Tail(u, Reps(p, u)));
      }
    }
  }
}
