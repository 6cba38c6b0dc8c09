/** The matcher as it runs: a table of bindings that fills up while a pattern is
    walked against a form. */
module SyntaxMatcher {
  import opened SyntaxRules
  import opened SyntaxRulesMatching

  method ListLength(v: Value) returns (n: int)
    ensures n == ListLen(v)
  {
    var rest := v;
    n := 0;
    while rest.Pair?
      invariant n >= 0
      invariant ListLen(v) == if ListLen(rest) < 0 then -1 else n + ListLen(rest)
      decreases rest
    {
      n := n + 1;
      rest := rest.cdr;
    }
    if rest != Nil { n := -1; }
  }

  method ListReverse(v: Value) returns (r: Value)
    ensures r == Reverse(v)
  {
    var rest := v;
    r := Nil;
    while rest.Pair?
      invariant ReverseOnto(rest, r) == Reverse(v)
      decreases rest
    {
      r := Pair(rest.car, r);
      rest := rest.cdr;
    }
  }

  class Context {
    const binds: array<Binding>
    var nbinds: nat

    ghost predicate Valid()
      reads this
    {
      binds.Length == BIND_MAX && nbinds <= BIND_MAX
    }

    ghost function Table(): Env
      reads this, binds
      requires Valid()
    {
      binds[..nbinds]
    }

    constructor ()
      ensures Valid() && Table() == [] && fresh(binds)
    {
      binds := new Binding[BIND_MAX](_ => Binding(0, Nil, 0));
      nbinds := 0;
    }

    method IsBound(v: nat) returns (found: bool)
      requires Valid()
      ensures found == (v in Names(Table()))
    {
      var i := 0;
      while i < nbinds
        invariant i <= nbinds
        invariant forall k :: 0 <= k < i ==> binds[k].base != v
      {
        if binds[i].base == v {
          assert Table()[i] in Table();
          return true;
        }
        i := i + 1;
      }
      return false;
    }

    method Append(b: Binding)
      requires Valid() && nbinds < BIND_MAX
      modifies this, binds
      ensures Valid() && Table() == old(Table()) + [b]
    {
      binds[nbinds] := b;
      nbinds := nbinds + 1;
    }

    method BindVar(v: nat, u: Value) returns (ok: bool)
      requires Valid()
      modifies this, binds
      ensures Valid() && ok == SyntaxRules.BindVar(old(Table()), v, u).Some?
      ensures ok ==> Table() == SyntaxRules.BindVar(old(Table()), v, u).value
    {
      FindAny(Table(), v);
      var bound := IsBound(v);
      if bound || nbinds >= BIND_MAX { return false; }
      Append(Binding(v, u, 0));
      return true;
    }

    method PrebindAll(names: seq<nat>) returns (ok: bool)
      requires Valid()
      modifies this, binds
      ensures Valid() && ok == Prebind(old(Table()), names).Some?
      ensures ok ==> Table() == Prebind(old(Table()), names).value
    {
      var i := 0;
      while i < |names|
        invariant i <= |names| && Valid()
        invariant Prebind(old(Table()), names[..i]) == Some(Table())
      {
        assert names[..i + 1][..i] == names[..i];
        FindAny(Table(), names[i]);
        var bound := IsBound(names[i]);
        if nbinds >= BIND_MAX || bound {
          PrebindFails(old(Table()), names, i + 1);
          return false;
        }
        Append(Binding(names[i], Nil, 1));
        i := i + 1;
      }
      assert names[..i] == names;
      return true;
    }
  
    /** What one item bound goes in front of what its variables have, each in the
        first row of that name. */
    method GatherFrom(base: nat, sub: Context)
      requires Valid() && base <= nbinds && sub.Valid() && sub.binds != binds
      requires Distinct(Table()) && Distinct(sub.Table())
      modifies binds
      ensures Table() == GatherAll(old(Table()), base, sub.Table())
    {
      ghost var was, found := Table(), sub.Table();
      var si := 0;
      while si < sub.nbinds
        invariant si <= sub.nbinds && sub.Table() == found
        invariant forall k :: 0 <= k < base ==> binds[k] == was[k]
        invariant forall k :: base <= k < nbinds ==> binds[k] == Gather(was[k], found[..si])
      {
        var bi := base;
        while bi < nbinds && binds[bi].base != sub.binds[si].base
          invariant base <= bi <= nbinds
          invariant forall k :: base <= k < bi ==> binds[k].base != sub.binds[si].base
        {
          bi := bi + 1;
        }
        forall k | base <= k < nbinds
          ensures Gather(was[k], found[..si + 1])
               == if k == bi then Joined(binds[k], sub.binds[si]) else binds[k]
        {
          GatherOneMore(was[k], found, si);
        }
        if bi < nbinds {
          binds[bi] := Joined(binds[bi], sub.binds[si]);
        }
        si := si + 1;
      }
      assert found[..si] == found;
    }

    /** The collected lists are turned back to the order of the form. */
    method SettleFrom(base: nat)
      requires Valid() && base <= nbinds
      modifies binds
      ensures Table() == Settle(old(Table()), base)
    {
      ghost var was := Table();
      var bi := base;
      while bi < nbinds
        invariant base <= bi <= nbinds
        invariant forall k :: bi <= k < nbinds ==> binds[k] == was[k]
        invariant forall k :: 0 <= k < bi ==> binds[k] == Settle(was, base)[k]
      {
        if binds[bi].ellipsis > 0 {
          var r := ListReverse(binds[bi].value);
          binds[bi] := binds[bi].(value := r);
        }
        bi := bi + 1;
      }
    }

    // ---- walking the pattern ----------------------------------------------

    method MatchPattern(pat: Value, use: Value) returns (ok: bool)
      requires Fragment(pat) && Valid() && Distinct(Table())
      modifies this, binds
      ensures Valid() && ok == Match(pat, use, false, old(Table())).Some?
      ensures ok ==> Table() == Match(pat, use, false, old(Table())).value && Distinct(Table())
      decreases pat, 3
    {
      match pat
      case Sym(base, _) =>
        ok := BindVar(base, use);
        if ok { BindVarIs(old(Table()), base, use); }
      case Pair(_, _) =>
        ok := MatchList(pat, use);
      case _ =>
        ok := pat == use;
    }

    method MatchList(pat0: Value, use0: Value) returns (ok: bool)
      requires Fragment(pat0) && Valid() && Distinct(Table())
      modifies this, binds
      ensures Valid() && ok == Match(pat0, use0, true, old(Table())).Some?
      ensures ok ==> Table() == Match(pat0, use0, true, old(Table())).value && Distinct(Table())
      decreases pat0, 2
    {
      hide Extended;
      ghost var goal := Match(pat0, use0, true, Table());
      var pat, use := pat0, use0;
      while pat.Pair?
        invariant Valid() && Distinct(Table()) && Fragment(pat)
        invariant pat == pat0 || pat < pat0
        invariant Match(pat, use, true, Table()) == goal
        decreases pat
      {
        if Repeats(pat) {
          ok := MatchEllipsis(pat, use);
          return;
        }
        if !use.Pair? { return false; }
        ok := MatchPattern(pat.car, use.car);
        if !ok { return; }
        pat, use := pat.cdr, use.cdr;
      }
      if pat.Sym? {
        ghost var before := Table();
        ok := BindVar(pat.base, use);
        if ok { BindVarIs(before, pat.base, use); }
      } else {
        ok := pat == Nil && use == Nil;
      }
    }

    /** One item matches in a table of its own, and its bindings are gathered. */
    method MatchItem(pcar: Value, item: Value, base: nat) returns (ok: bool)
      requires Fragment(pcar) && Valid() && base <= nbinds && Distinct(Table())
      modifies binds
      ensures Valid() && ok == Match(pcar, item, false, []).Some?
      ensures ok ==> Table() == GatherAll(old(Table()), base, Match(pcar, item, false, []).value) && Distinct(Table())
      ensures !ok ==> Table() == old(Table())
      decreases pcar, 4
    {
      hide Match, Fragment;
      var sub := new Context();
      ok := sub.MatchPattern(pcar, item);
      if ok {
        GatherFrom(base, sub);
      }
    }

    /** Each of the first nrep items matches. */
    method MatchItems(pcar: Value, use: Value, nrep: nat, base: nat) returns (ok: bool)
      requires Fragment(pcar) && nrep <= |Items(use)|
      requires Valid() && base <= nbinds && Distinct(Table())
      modifies binds
      ensures Valid() && ok == MatchEach(pcar, Items(use)[..nrep], old(Table()), base).Some?
      ensures ok ==> Table() == MatchEach(pcar, Items(use)[..nrep], old(Table()), base).value && Distinct(Table())
      decreases pcar, 5
    {
      hide Match, Fragment, GatherAll, Distinct;
      ghost var items := Items(use)[..nrep];
      var u := use;
      var i := 0;
      while i < nrep
        invariant i <= nrep && Valid() && Distinct(Table()) && u == Tail(use, i)
        invariant MatchEach(pcar, items[..i], old(Table()), base) == Some(Table())
      {
        assert items[..i + 1][..i] == items[..i];
        TailSplits(use, i);
        if !u.Pair? { return false; }
        assert u.car == items[i];
        ok := MatchItem(pcar, u.car, base);
        if !ok {
          EachFails(pcar, items, old(Table()), base, i + 1);
          return;
        }
        u := u.cdr;
        i := i + 1;
        TailOneMore(use, i - 1);
      }
      assert items[..i] == items;
      ok := true;
    }

    method MatchEllipsis(pat: Value, use: Value) returns (ok: bool)
      requires Fragment(pat) && Repeats(pat) && Valid() && Distinct(Table())
      modifies this, binds
      ensures Valid() && ok == Match(pat, use, true, old(Table())).Some?
      ensures ok ==> Table() == Match(pat, use, true, old(Table())).value && Distinct(Table())
      decreases pat, 1
    {
      hide Extended, Gathered, Collected;
      var pcar, after := pat.car, pat.cdr.cdr;
      var need := ListLength(after);
      var ulen := ListLength(use);
      if need < 0 || ulen < 0 || ulen < need { return false; }
      var nrep := ulen - need;
      var base := nbinds;
      ok := PrebindAll(Collect(pcar, []));
      if !ok { return; }
      ProperList(use);
      PrebindIs(old(Table()), Collect(pcar, []));
      ok := MatchItems(pcar, use, nrep, base);
      if !ok { return; }
      SettleFrom(base);
      ok := MatchList(after, Tail(use, nrep));
    }
  }

  lemma {:induction false} TailOneMore(v: Value, n: nat)
    requires Tail(v, n).Pair?
    ensures Tail(v, n + 1) == Tail(v, n).cdr
  {
    if n > 0 {
      TailOneMore(v.cdr, n - 1);
    }
  }

  /** A row with one more item in front. */
  function Joined(b: Binding, x: Binding): Binding {
    Binding(b.base, Pair(x.value, b.value),
            if x.ellipsis > 0 && b.ellipsis < x.ellipsis + 1 then x.ellipsis + 1 else b.ellipsis)
  }

  lemma {:induction false} FindOneMore(env: Env, b: Binding, v: nat)
    ensures Find(env + [b], v) == if Find(env, v).Some? then Find(env, v) else if b.base == v then Some(b) else None
  {
    if env != [] && env[0].base != v {
      assert (env + [b])[1..] == env[1..] + [b];
      FindOneMore(env[1..], b, v);
    }
  }

  lemma GatherOneMore(b: Binding, found: Env, si: nat)
    requires Distinct(found) && si < |found|
    ensures Gather(b, found[..si + 1])
         == if found[si].base == b.base then Joined(b, found[si]) else Gather(b, found[..si])
    ensures found[si].base == b.base ==> Gather(b, found[..si]) == b
  {
    assert found[..si + 1] == found[..si] + [found[si]];
    FindOneMore(found[..si], found[si], b.base);
    FindAny(found[..si], b.base);
    if found[si].base == b.base {
      assert b.base !in Names(found[..si]);
    }
  }

  lemma {:induction false} PrebindFails(env: Env, names: seq<nat>, i: nat)
    requires i <= |names| && Prebind(env, names[..i]).None?
    ensures Prebind(env, names).None?
  {
    if i < |names| {
      assert names[..|names| - 1][..i] == names[..i];
      PrebindFails(env, names[..|names| - 1], i);
    } else {
      assert names[..i] == names;
    }
  }

  lemma {:induction false} EachFails(a: Value, items: seq<Value>, env: Env, base: nat, i: nat)
    requires Fragment(a) && i <= |items| && MatchEach(a, items[..i], env, base).None?
    ensures MatchEach(a, items, env, base).None?
  {
    if i < |items| {
      assert items[..|items| - 1][..i] == items[..i];
      EachFails(a, items[..|items| - 1], env, base, i);
    } else {
      assert items[..i] == items;
    }
  }
}
