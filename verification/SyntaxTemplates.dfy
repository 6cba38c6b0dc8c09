/** What a template stands for: instantiation is substitution, repetition by
    repetition. */
module SyntaxTemplates {
  import opened SyntaxRules
  import opened SyntaxRulesMatching
  import opened SyntaxRulesInverse

  // ---- substitution, told from the bindings and the path of repetitions ----------

  /** The item of nested lists that a path leads to, outermost index first. */
  function ItemAt(v: Value, path: seq<nat>): Value
    decreases |path|
  {
    if path == [] then v else ItemAt(Nth(v, path[0]), path[1..])
  }

  /** As much of the path as there are lists around the variable's items. */
  function Within(b: Binding, path: seq<nat>): seq<nat> {
    if |path| <= b.ellipsis then path else path[..b.ellipsis]
  }

  /** What a variable reads as in the repetition that the path names. */
  function ReadAt(b: Binding, path: seq<nat>): Value {
    ItemAt(b.value, Within(b, path))
  }

  /** Whether the path leaves a list for one more repetition. */
  predicate Repeated(b: Binding, path: seq<nat>) {
    b.ellipsis > |path|
  }

  /** The symbols of an element that its repetitions are counted by: a dotted tail is
      not looked at. */
  ghost function Counters(t: Value): set<nat> {
    match t
    case Sym(base, _) => {base}
    case Pair(a, d) => Counters(a) + if d.Pair? then Counters(d) else {}
    case _ => {}
  }

  /** n is how often an element is repeated: as often as the longest list of one of
      its counters is long, but not more than 64 times, and not at all without one. */
  ghost predicate IsCount(n: nat, a: Value, env: Env, path: seq<nat>) {
    && n <= ELLIPSIS_MAX
    && (forall v <- Counters(a) :: Find(env, v).Some? && Repeated(Find(env, v).value, path) ==>
          ListLen(ReadAt(Find(env, v).value, path)) <= n || n == ELLIPSIS_MAX)
    && (n > 0 ==> exists v :: v in Counters(a) && Find(env, v).Some? && Repeated(Find(env, v).value, path)
                              && ListLen(ReadAt(Find(env, v).value, path)) >= n)
  }

  /** u is the template with every variable replaced by what it reads as; symbols that
      are not bound and everything else stay. */
  ghost predicate Substituted(t: Value, env: Env, path: seq<nat>, u: Value)
    requires Fragment(t)
    decreases t
  {
    match t
    case Sym(base, _) => u == if Find(env, base).Some? then ReadAt(Find(env, base).value, path) else t
    case Pair(a, d) =>
      if Repeats(t) then
        exists n: nat ::
          && IsCount(n, a, env, path) && n <= |Items(u)|
          && (forall i :: 0 <= i < n ==> Substituted(a, env, path + [i], Items(u)[i]))
          && Substituted(d.cdr, env, path, Tail(u, n))
      else
        u.Pair? && Substituted(a, env, path, u.car) && Substituted(d, env, path, u.cdr)
    case _ => u == t
  }

  // ---- peeling along a path --------------------------------------------------------

  ghost function PeelPath(env: Env, path: seq<nat>): Env
    decreases |path|
  {
    if path == [] then env else Peel(PeelPath(env, path[..|path| - 1]), path[|path| - 1])
  }

  lemma {:induction false} FindPeeled(env: Env, i: nat, v: nat)
    ensures Find(Peel(env, i), v) ==
            match Find(env, v)
            case None => None
            case Some(b) => Some(if b.ellipsis == 0 then b else Binding(b.base, Nth(b.value, i), b.ellipsis - 1))
  {
    if env != [] && env[0].base != v {
      FindPeeled(env[1..], i, v);
      assert Peel(env, i)[1..] == Peel(env[1..], i);
    }
  }

  lemma {:induction false} ItemOneMore(v: Value, path: seq<nat>, i: nat)
    ensures ItemAt(v, path + [i]) == Nth(ItemAt(v, path), i)
    decreases |path|
  {
    if path == [] {
      assert ([] + [i])[1..] == [];
    } else {
      ItemOneMore(Nth(v, path[0]), path[1..], i);
      assert (path + [i])[1..] == path[1..] + [i];
    }
  }

  /** A variable in the peeled bindings has what it reads as along the path, and the
      depth that is left. */
  lemma {:induction false} FindAlong(env: Env, path: seq<nat>, v: nat)
    ensures Find(PeelPath(env, path), v) ==
            match Find(env, v)
            case None => None
            case Some(b) => Some(Binding(b.base, ReadAt(b, path), if b.ellipsis <= |path| then 0 else b.ellipsis - |path|))
    decreases |path|
  {
    if path == [] {
      if Find(env, v).Some? { assert Within(Find(env, v).value, path) == []; }
    } else {
      var front, i := path[..|path| - 1], path[|path| - 1];
      FindAlong(env, front, v);
      FindPeeled(PeelPath(env, front), i, v);
      if Find(env, v).Some? {
        var b := Find(env, v).value;
        assert path == front + [i];
        if b.ellipsis > |front| {
          ItemOneMore(b.value, front, i);
        } else {
          assert Within(b, path) == Within(b, front);
        }
      }
    }
  }

  // ---- counting --------------------------------------------------------------------

  /** A counter of the element with a list. */
  ghost predicate Counts(env: Env, v: nat) {
    Find(env, v).Some? && Find(env, v).value.ellipsis > 0
  }

  lemma {:induction false} CountIsLongest(t: Value, env: Env)
    ensures RepeatCount(t, env) >= -1
    ensures forall v <- Counters(t) :: Counts(env, v) ==> ListLen(Find(env, v).value.value) <= RepeatCount(t, env)
    ensures RepeatCount(t, env) >= 0 ==>
              exists v :: v in Counters(t) && Counts(env, v) && ListLen(Find(env, v).value.value) == RepeatCount(t, env)
  {
    match t
    case Sym(base, _) =>
      assert base in Counters(t);
    case Pair(a, d) =>
      CountIsLongest(a, env);
      if d.Pair? { CountIsLongest(d, env); }
    case _ =>
  }

  lemma CountsAlong(env: Env, path: seq<nat>, v: nat)
    ensures Counts(PeelPath(env, path), v) <==> Find(env, v).Some? && Repeated(Find(env, v).value, path)
    ensures Counts(PeelPath(env, path), v) ==>
              Find(PeelPath(env, path), v).value.value == ReadAt(Find(env, v).value, path)
  {
    FindAlong(env, path, v);
  }

  lemma RepetitionsAlong(a: Value, env: Env, path: seq<nat>)
    ensures IsCount(Repetitions(a, PeelPath(env, path)), a, env, path)
  {
    var p := PeelPath(env, path);
    var n := Repetitions(a, p);
    CountIsLongest(a, p);
    hide ReadAt, Repeated, PeelPath, Counters, RepeatCount, Find;
    forall v <- Counters(a) | Find(env, v).Some? && Repeated(Find(env, v).value, path)
      ensures ListLen(ReadAt(Find(env, v).value, path)) <= n || n == ELLIPSIS_MAX
    {
      CountsAlong(env, path, v);
    }
    if n > 0 {
      var v :| v in Counters(a) && Counts(p, v) && ListLen(Find(p, v).value.value) == RepeatCount(a, p);
      CountsAlong(env, path, v);
    }
  }

  lemma CountIsUnique(m: nat, n: nat, a: Value, env: Env, path: seq<nat>)
    requires IsCount(m, a, env, path) && IsCount(n, a, env, path)
    ensures m == n
  {
  }

  // ---- instantiation is substitution -------------------------------------------------

  lemma {:induction false} InstantiateAlong(t: Value, env: Env, path: seq<nat>)
    requires Fragment(t)
    ensures Substituted(t, env, path, Instantiate(t, PeelPath(env, path)))
    decreases t
  {
    match t
    case Sym(base, _) =>
      FindAlong(env, path, base);
      if Find(env, base).Some? { DeepCopyIsEqual(ReadAt(Find(env, base).value, path)); }
    case Pair(a, d) =>
      if Repeats(t) {
        RepeatAlong(t, env, path);
      } else {
        InstantiateAlong(a, env, path);
        InstantiateAlong(d, env, path);
      }
    case _ =>
  }

  lemma {:induction false} RepeatAlong(t: Value, env: Env, path: seq<nat>)
    requires Fragment(t) && Repeats(t)
    ensures Substituted(t, env, path, Instantiate(t, PeelPath(env, path)))
    decreases t, 0
  {
    var a, after, p := t.car, t.cdr.cdr, PeelPath(env, path);
    var n, pieces, rest := Repetitions(a, p), Pieces(t, p), Instantiate(after, p);
    var u := Instantiate(t, p);
    assert u == List(pieces, rest);
    ListItems(pieces, rest);
    RepetitionsAlong(a, env, path);
    InstantiateAlong(after, env, path);
    hide Instantiate, Repetitions, IsCount, Find;
    forall i | 0 <= i < n ensures Substituted(a, env, path + [i], Items(u)[i]) {
      InstantiateAlong(a, env, path + [i]);
      assert (path + [i])[..|path|] == path;
      assert Items(u)[i] == pieces[i];
    }
  }

  /** There is one substitution. */
  lemma {:induction false} SubstitutionIsUnique(t: Value, env: Env, path: seq<nat>, u: Value, w: Value)
    requires Fragment(t) && Substituted(t, env, path, u) && Substituted(t, env, path, w)
    ensures u == w
    decreases t
  {
    match t
    case Pair(a, d) =>
      if Repeats(t) {
        RepeatIsUnique(t, env, path, u, w);
      } else {
        SubstitutionIsUnique(a, env, path, u.car, w.car);
        SubstitutionIsUnique(d, env, path, u.cdr, w.cdr);
      }
    case _ =>
  }

  lemma RepeatParts(t: Value, env: Env, path: seq<nat>, u: Value) returns (n: nat)
    requires Fragment(t) && Repeats(t) && Substituted(t, env, path, u)
    ensures IsCount(n, t.car, env, path) && n <= |Items(u)| && Substituted(t.cdr.cdr, env, path, Tail(u, n))
    ensures forall i :: 0 <= i < n ==> Substituted(t.car, env, path + [i], Items(u)[i])
  {
    n :| IsCount(n, t.car, env, path) && n <= |Items(u)|
         && (forall i :: 0 <= i < n ==> Substituted(t.car, env, path + [i], Items(u)[i]))
         && Substituted(t.cdr.cdr, env, path, Tail(u, n));
  }

  lemma {:induction false} RepeatIsUnique(t: Value, env: Env, path: seq<nat>, u: Value, w: Value)
    requires Fragment(t) && Repeats(t) && Substituted(t, env, path, u) && Substituted(t, env, path, w)
    ensures u == w
    decreases t, 0
  {
    var n := RepeatParts(t, env, path, u);
    var m := RepeatParts(t, env, path, w);
    CountIsUnique(m, n, t.car, env, path);
    hide IsCount, Substituted;
    SubstitutionIsUnique(t.cdr.cdr, env, path, Tail(u, n), Tail(w, n));
    forall i | 0 <= i < n ensures Items(u)[i] == Items(w)[i] {
      SubstitutionIsUnique(t.car, env, path + [i], Items(u)[i], Items(w)[i]);
    }
    TailSplits(u, n);
    TailSplits(w, n);
    assert Items(u)[..n] == Items(w)[..n];
  }

  /** Instantiating any template under any bindings gives its substitution, and nothing
      else is one. */
  lemma InstantiateIsSubstitution(t: Value, env: Env, u: Value)
    requires Fragment(t)
    ensures Substituted(t, env, [], u) <==> u == Instantiate(t, env)
  {
    InstantiateAlong(t, env, []);
    if Substituted(t, env, [], u) {
      SubstitutionIsUnique(t, env, [], u, Instantiate(t, env));
    }
  }

  /** A variable without an ellipsis reads the same in every repetition. */
  lemma SingleReadsSame(b: Binding, path: seq<nat>)
    requires b.ellipsis == 0
    ensures ReadAt(b, path) == b.value
  {
    assert Within(b, path) == [];
  }

  /** The template ((k x) ...), with k bound to one form and x to a list of one,
      gives one pair of the two: k is read again in each repetition. */
  lemma SingleIsRepeated(k: nat, x: nat, v: Value, w: Value)
    requires k > SYNTAX_RULES && x > SYNTAX_RULES && k != x
    ensures var t := Pair(Pair(Sym(k, 0), Pair(Sym(x, 0), Nil)), Pair(Sym(ELLIPSIS, 0), Nil));
            Fragment(t) && Instantiate(t, [Binding(k, v, 0), Binding(x, Pair(w, Nil), 1)]) == Pair(Pair(v, Pair(w, Nil)), Nil)
  {
    var a := Pair(Sym(k, 0), Pair(Sym(x, 0), Nil));
    var t := Pair(a, Pair(Sym(ELLIPSIS, 0), Nil));
    var env := [Binding(k, v, 0), Binding(x, Pair(w, Nil), 1)];
    assert Fragment(Sym(k, 0)) && Fragment(Sym(x, 0)) && Fragment(a.cdr) && Fragment(a);
    assert Fragment(t.cdr.cdr) && Repeats(t) && HeadOk(a) && Fragment(t);
    OneRepetition(k, x, v, w);
    InstantiateIsSubstitution(t, env, Pair(Pair(v, Pair(w, Nil)), Nil));
  }

  lemma ReadHere(b: Binding)
    ensures ReadAt(b, []) == b.value
  {
    var none: seq<nat> := [];
    assert Within(b, none) == none;
    assert ItemAt(b.value, none) == b.value;
  }

  lemma OneRepetition(k: nat, x: nat, v: Value, w: Value)
    requires k > SYNTAX_RULES && x > SYNTAX_RULES && k != x
    ensures var a := Pair(Sym(k, 0), Pair(Sym(x, 0), Nil));
            var t := Pair(a, Pair(Sym(ELLIPSIS, 0), Nil));
            Fragment(t) && Substituted(t, [Binding(k, v, 0), Binding(x, Pair(w, Nil), 1)], [], Pair(Pair(v, Pair(w, Nil)), Nil))
  {
    var a := Pair(Sym(k, 0), Pair(Sym(x, 0), Nil));
    var t := Pair(a, Pair(Sym(ELLIPSIS, 0), Nil));
    var env := [Binding(k, v, 0), Binding(x, Pair(w, Nil), 1)];
    var u := Pair(Pair(v, Pair(w, Nil)), Nil);
    assert Fragment(Sym(k, 0)) && Fragment(Sym(x, 0)) && Fragment(a.cdr) && Fragment(a);
    assert Fragment(t.cdr.cdr) && Repeats(t) && HeadOk(a) && Fragment(t);
    assert Find(env, k) == Some(env[0]) && Find(env, x) == Some(env[1]) by { assert env[1..][0] == env[1]; }
    ReadHere(env[1]);
    assert ListLen(Pair(w, Nil)) == 1;
    assert Counters(a) == {k, x} by { assert Counters(a.cdr) == {x}; }
    assert x in Counters(a) && Repeated(env[1], []);
    assert IsCount(1, a, env, []);
    assert [] + [0] == [0] && ItemAt(Pair(w, Nil), [0]) == ItemAt(w, [0][1..]) == w;
    SingleReadsSame(env[0], [0]);
    assert Substituted(Sym(k, 0), env, [0], v) && Substituted(Sym(x, 0), env, [0], w);
    assert Substituted(a.cdr, env, [0], Pair(w, Nil));
    assert Items(u) == [u.car] && Tail(u, 1) == Nil by { assert Items(Nil) == []; assert Tail(u, 1) == Tail(u.cdr, 0); }
    assert Substituted(a, env, [] + [0], Items(u)[0]);
    assert Substituted(Nil, env, [], Tail(u, 1));
  }
}
