/** The linked function compilers: a name is resolved by recursion through the
    enclosing function, and each table on the way is extended in place. */
module FunctionScopes {
  import opened LexicalAddressing

  class FuncScope {
    const enclosing: FuncScope?
    var locals: seq<Local>
    var upvalues: seq<Upvalue>
    ghost const repr: set<FuncScope>

    /** This function and the ones around it, each once. */
    ghost predicate Linked()
      decreases repr
    {
      && this in repr
      && if enclosing == null then repr == {this}
         else enclosing.repr == repr - {this} && enclosing.Linked()
    }

    /** What the linked functions hold, outermost first. */
    ghost function Scopes(): (c: Chain)
      requires Linked()
      reads repr
      ensures c != [] && Last(c) == Scope(locals, upvalues)
      ensures |c| == |repr|
      decreases repr
    {
      (if enclosing == null then [] else enclosing.Scopes()) + [Scope(locals, upvalues)]
    }

    constructor (enclosing: FuncScope?)
      requires enclosing != null ==> enclosing.Linked()
      ensures Linked() && this.enclosing == enclosing && fresh(this)
      ensures Scopes() == (if enclosing == null then [] else enclosing.Scopes()) + [Scope([], [])]
    {
      this.enclosing := enclosing;
      locals := [];
      upvalues := [];
      repr := {this} + if enclosing == null then {} else enclosing.repr;
    }

    method ResolveLocalName(name: Name) returns (i: int)
      ensures i == ResolveLocal(locals, name)
    {
      i := |locals| - 1;
      assert locals[..|locals|] == locals;
      while i >= 0
        invariant -1 <= i < |locals|
        invariant ResolveLocal(locals[..i + 1], name) == ResolveLocal(locals, name)
      {
        assert Outer(locals[..i + 1]) == locals[..i];
        if locals[i].name == name { return; }
        i := i - 1;
      }
    }

    /** An index of a local or an entry fits a byte because the tables are that short. */
    method AddEntry(index: nat, isLocal: bool) returns (i: int)
      requires Linked() && index < 256
      modifies `upvalues
      ensures i == AddUpvalue(Last(old(Scopes())), Upvalue(index, isLocal)).1
      ensures Scopes() == Outer(old(Scopes())) + [AddUpvalue(Last(old(Scopes())), Upvalue(index, isLocal)).0]
    {
      var u := Upvalue(index, isLocal);
      var k := 0;
      while k < |upvalues|
        invariant k <= |upvalues| && forall j :: 0 <= j < k ==> upvalues[j] != u
        modifies {}
      {
        if upvalues[k] == u {
          FirstIndex(upvalues, u, k);
          return k;
        }
        k := k + 1;
      }
      if |upvalues| >= MAX_UPVALUES {
        return -1;
      }
      upvalues := upvalues + [u];
      return |upvalues| - 1;
    }

    method ResolveUpvalue(name: Name) returns (idx: int)
      requires Linked() && WellFormed(Scopes())
      modifies repr
      ensures (Scopes(), idx) == Resolve(old(Scopes()), name)
      ensures Resolves(old(Scopes()), name, Scopes(), idx)
      decreases repr
    {
      hide WellFormed, Resolves, Resolve, AddUpvalue;
      ResolveReachesBinding(Scopes(), name);
      ResolveSteps(Scopes(), name);
      if enclosing == null {
        return -1;
      }
      ghost var c := Scopes();
      ghost var outer := enclosing.Scopes();
      assert Outer(c) == outer;
      assert c[|c| - 2] == Last(outer);
      SizesFit(c, |c| - 2);
      var l := enclosing.ResolveLocalName(name);
      if l != -1 {
        enclosing.Mark(l);
        idx := AddEntry(l, true);
        return;
      }
      PrefixIsWellFormed(c, |c| - 1);
      ghost var top := Last(c);
      var up := enclosing.ResolveUpvalue(name);
      if up != -1 {
        ResolvedIndexFits(outer, name, enclosing.Scopes(), up);
        assert Last(Scopes()) == top && Outer(Scopes()) == enclosing.Scopes();
        idx := AddEntry(up, false);
        return;
      }
      return -1;
    }

    // A local some inner function uses.
    method Mark(i: nat)
      requires Linked() && i < |locals|
      modifies `locals
      ensures Scopes() == Outer(old(Scopes())) + [Capture(Last(old(Scopes())), i)]
    {
      locals := locals[i := locals[i].(captured := true)];
    }
  }

  // One step of the resolution, seen from the function and the chain around it.
  lemma ResolveSteps(c: Chain, name: Name)
    requires c != []
    ensures |c| == 1 ==> Resolve(c, name) == (c, -1)
    ensures |c| > 1 ==>
              var outer := Outer(c);
              var l := ResolveLocal(Last(outer).locals, name);
              var up := Resolve(outer, name);
              && (l != -1 ==>
                    var a := AddUpvalue(Last(c), Upvalue(l, true));
                    Resolve(c, name) == (Outer(outer) + [Capture(Last(outer), l)] + [a.0], a.1))
              && (l == -1 && up.1 >= 0 ==>
                    var a := AddUpvalue(Last(c), Upvalue(up.1, false));
                    Resolve(c, name) == (up.0 + [a.0], a.1))
              && (l == -1 && up.1 == -1 ==> Resolve(c, name) == (up.0 + [Last(c)], -1))
  {
  }

  lemma ResolvedIndexFits(c: Chain, name: Name, d: Chain, idx: int)
    requires WellFormed(c) && Resolves(c, name, d, idx)
    ensures -1 <= idx < MAX_UPVALUES
  {
  }

  lemma {:induction false} FirstIndex(ups: seq<Upvalue>, u: Upvalue, k: nat)
    requires k < |ups| && ups[k] == u && forall j :: 0 <= j < k ==> ups[j] != u
    ensures IndexOf(ups, u) == k
  {
    if k > 0 {
      FirstIndex(ups[1..], u, k - 1);
    }
  }
}
