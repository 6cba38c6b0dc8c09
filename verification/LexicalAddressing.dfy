/** Which variable a name means in nested functions, and the chain of upvalue
    entries that leads there. A chain lists the functions being compiled,
    outermost first. */
module LexicalAddressing {

  type Name = nat

  const MAX_LOCALS := 256
  const MAX_UPVALUES := 64

  datatype Local = Local(name: Name, captured: bool)
  datatype Upvalue = Upvalue(index: nat, isLocal: bool)
  datatype Scope = Scope(locals: seq<Local>, upvalues: seq<Upvalue>)

  type Chain = seq<Scope>

  function Last<T>(s: seq<T>): T
    requires s != []
  {
    s[|s| - 1]
  }

  function Outer<T>(s: seq<T>): seq<T>
    requires s != []
  {
    s[..|s| - 1]
  }

  // ---- the compiler's resolution, as a function of the whole chain ----

  /** The latest local of that name, or -1. */
  function ResolveLocal(locals: seq<Local>, name: Name): (i: int)
    ensures -1 <= i < |locals|
    ensures i >= 0 ==> locals[i].name == name && forall j :: i < j < |locals| ==> locals[j].name != name
    ensures i == -1 ==> forall j :: 0 <= j < |locals| ==> locals[j].name != name
  {
    if locals == [] then -1
    else if Last(locals).name == name then |locals| - 1
    else ResolveLocal(Outer(locals), name)
  }

  function IndexOf(ups: seq<Upvalue>, u: Upvalue): (i: int)
    ensures -1 <= i < |ups|
    ensures i >= 0 ==> ups[i] == u
    ensures i == -1 ==> u !in ups
  {
    if ups == [] then -1 else if ups[0] == u then 0
    else
      var r := IndexOf(ups[1..], u);
      if r < 0 then -1 else r + 1
  }

  /** An entry that is there already is shared; a full table refuses new ones. */
  function AddUpvalue(s: Scope, u: Upvalue): (r: (Scope, int)) {
    var i := IndexOf(s.upvalues, u);
    if i >= 0 then (s, i)
    else if |s.upvalues| >= MAX_UPVALUES then (s, -1)
    else (s.(upvalues := s.upvalues + [u]), |s.upvalues|)
  }

  function Capture(s: Scope, i: nat): Scope
    requires i < |s.locals|
  {
    s.(locals := s.locals[i := s.locals[i].(captured := true)])
  }

  function Resolve(c: Chain, name: Name): (r: (Chain, int))
    requires c != []
    ensures |r.0| == |c|
  {
    if |c| == 1 then (c, -1)
    else
      var outer, inner := Outer(c), Last(c);
      var l := ResolveLocal(Last(outer).locals, name);
      if l != -1 then
        var a := AddUpvalue(inner, Upvalue(l, true));
        (Outer(outer) + [Capture(Last(outer), l)] + [a.0], a.1)
      else
        var up := Resolve(outer, name);
        if up.1 != -1 then
          var a := AddUpvalue(inner, Upvalue(up.1, false));
          (up.0 + [a.0], a.1)
        else (up.0 + [inner], -1)
  }

  // ---- what it should mean ----

  datatype Place = Nowhere | At(depth: nat, local: nat)

  /** The innermost enclosing local of that name, from the function around the last one outwards. */
  function Binding(c: Chain, name: Name): Place {
    if |c| <= 1 then Nowhere
    else
      var l := ResolveLocal(c[|c| - 2].locals, name);
      if l >= 0 then At(|c| - 2, l) else Binding(Outer(c), name)
  }

  /** Every entry points at a local or an entry of the function around it; none is there twice. */
  ghost predicate WellFormed(c: Chain) {
    forall k :: 0 <= k < |c| ==> ScopeOk(c, k)
  }

  ghost predicate ScopeOk(c: Chain, k: nat)
    requires k < |c|
  {
    && |c[k].locals| <= MAX_LOCALS && |c[k].upvalues| <= MAX_UPVALUES
    && (k == 0 ==> c[k].upvalues == [])
    && (k > 0 ==> forall i :: 0 <= i < |c[k].upvalues| ==> Points(c[k - 1], c[k].upvalues[i]))
    && forall i, j :: 0 <= i < j < |c[k].upvalues| ==> c[k].upvalues[i] != c[k].upvalues[j]
  }

  predicate Points(outer: Scope, u: Upvalue) {
    u.index < if u.isLocal then |outer.locals| else |outer.upvalues|
  }

  /** The local an entry of function k leads to. */
  ghost function Follow(c: Chain, k: nat, i: nat): (p: Place)
    requires WellFormed(c) && k < |c| && i < |c[k].upvalues|
    ensures p.At? && p.depth < k && p.local < |c[p.depth].locals|
    decreases k
  {
    assert ScopeOk(c, k);
    var u := c[k].upvalues[i];
    if u.isLocal then At(k - 1, u.index) else Follow(c, k - 1, u.index)
  }

  /** c grew into d: names and old entries are untouched, captured marks only come. */
  ghost predicate Grew(c: Chain, d: Chain) {
    |c| == |d| && forall k :: 0 <= k < |c| ==> ScopeGrew(c[k], d[k])
  }

  ghost predicate ScopeGrew(s: Scope, t: Scope) {
    && s.upvalues <= t.upvalues
    && |s.locals| == |t.locals|
    && forall i :: 0 <= i < |s.locals| ==>
         s.locals[i].name == t.locals[i].name && (s.locals[i].captured ==> t.locals[i].captured)
  }

  // ---- laws ----

  lemma {:induction false} FollowAfterGrowth(c: Chain, d: Chain, k: nat, i: nat)
    requires WellFormed(c) && WellFormed(d) && Grew(c, d) && k < |c| && i < |c[k].upvalues|
    ensures Follow(d, k, i) == Follow(c, k, i)
    decreases k
  {
    assert ScopeGrew(c[k], d[k]) && ScopeOk(c, k);
    assert c[k].upvalues[i] == d[k].upvalues[i];
    if !c[k].upvalues[i].isLocal {
      FollowAfterGrowth(c, d, k - 1, c[k].upvalues[i].index);
    }
  }

  lemma SameScope(c: Chain, d: Chain, j: nat)
    requires j < |c| && j < |d| && ScopeOk(c, j) && c[j] == d[j] && (j > 0 ==> c[j - 1] == d[j - 1])
    ensures ScopeOk(d, j)
  {
  }

  lemma PrefixIsWellFormed(c: Chain, n: nat)
    requires WellFormed(c) && n <= |c|
    ensures WellFormed(c[..n])
  {
    forall j | 0 <= j < n
      ensures ScopeOk(c[..n], j)
    {
      assert ScopeOk(c, j);
      SameScope(c, c[..n], j);
    }
  }

  lemma {:induction false} FollowInPrefix(c: Chain, n: nat, k: nat, i: nat)
    requires WellFormed(c) && k < n <= |c| && i < |c[k].upvalues|
    ensures WellFormed(c[..n]) && Follow(c[..n], k, i) == Follow(c, k, i)
    decreases k
  {
    PrefixIsWellFormed(c, n);
    assert ScopeOk(c, k);
    if !c[k].upvalues[i].isLocal {
      FollowInPrefix(c, n, k - 1, c[k].upvalues[i].index);
    }
  }

  /** Different entries of one function lead to different variables. */
  lemma {:induction false} EntriesAreInjective(c: Chain, k: nat, i: nat, j: nat)
    requires WellFormed(c) && k < |c| && i < |c[k].upvalues| && j < |c[k].upvalues|
    requires Follow(c, k, i) == Follow(c, k, j)
    ensures i == j
    decreases k
  {
    assert ScopeOk(c, k);
    var u, v := c[k].upvalues[i], c[k].upvalues[j];
    if !u.isLocal && !v.isLocal {
      EntriesAreInjective(c, k - 1, u.index, v.index);
    }
    assert u == v;
  }

  ghost predicate Reaches(c: Chain, k: nat, p: Place)
    requires WellFormed(c) && k < |c|
  {
    exists i :: 0 <= i < |c[k].upvalues| && Follow(c, k, i) == p
  }

  /** Function k has no entry for the variable and no space for one. */
  ghost predicate Stuck(c: Chain, k: nat, p: Place)
    requires WellFormed(c) && k < |c|
  {
    |c[k].upvalues| == MAX_UPVALUES && !Reaches(c, k, p)
  }

  /** Some function between the variable and the last one is stuck. */
  ghost predicate SomeStuck(c: Chain, p: Place)
    requires WellFormed(c) && p.At?
  {
    exists k :: p.depth < k < |c| && Stuck(c, k, p)
  }

  /** What a resolution promises. */
  ghost predicate Resolves(c: Chain, name: Name, d: Chain, idx: int)
    requires WellFormed(c)
  {
    var p := Binding(c, name);
    && WellFormed(d) && Grew(c, d)
    && -1 <= idx < MAX_UPVALUES
    && (idx == -1 <==> p.Nowhere? || SomeStuck(c, p))
    && (idx >= 0 ==>
          && idx < |Last(d).upvalues| && Follow(d, |d| - 1, idx) == p
          && p.local < |d[p.depth].locals| && d[p.depth].locals[p.local].captured)
  }

  lemma BindingIsBelow(c: Chain, name: Name)
    ensures var p := Binding(c, name);
            p.At? ==> p.depth + 1 < |c| && p.local < |c[p.depth].locals| && c[p.depth].locals[p.local].name == name
  {
    if |c| > 1 {
      BindingIsBelow(Outer(c), name);
    }
  }

  /** Putting a function with one more entry on top of a chain that grew. */
  lemma AddOnTop(c: Chain, outer: Chain, u: Upvalue)
    requires WellFormed(c) && |c| >= 2 && WellFormed(outer) && Grew(Outer(c), outer)
    requires Points(Last(outer), u) && u.index < 256
    ensures var a := AddUpvalue(Last(c), u);
            var d := outer + [a.0];
            && WellFormed(d) && Grew(c, d) && -1 <= a.1 < MAX_UPVALUES
            && (a.1 >= 0 ==> a.1 < |Last(d).upvalues| && Last(d).upvalues[a.1] == u)
            && (a.1 == -1 <==> |Last(c).upvalues| == MAX_UPVALUES && u !in Last(c).upvalues)
  {
    hide ScopeGrew, ScopeOk, AddUpvalue;
    var a := AddUpvalue(Last(c), u);
    var d := outer + [a.0];
    var k := |c| - 1;
    assert ScopeOk(c, k) && ScopeGrew(Outer(c)[k - 1], outer[k - 1]);
    AddFits(c, k, outer, u);
    forall j | 0 <= j < k
      ensures ScopeOk(d, j) && ScopeGrew(c[j], d[j])
    {
      assert ScopeOk(outer, j) && ScopeGrew(Outer(c)[j], outer[j]);
      SameScope(outer, d, j);
    }
    assert d[k] == a.0;
  }

  lemma AddFits(c: Chain, k: nat, outer: Chain, u: Upvalue)
    requires 0 < k == |outer| < |c| && ScopeOk(c, k) && ScopeGrew(c[k - 1], outer[k - 1])
    requires Points(outer[k - 1], u)
    ensures var a := AddUpvalue(c[k], u);
            && ScopeOk(outer + [a.0], k) && ScopeGrew(c[k], a.0) && -1 <= a.1 < MAX_UPVALUES
            && (a.1 >= 0 ==> a.1 < |a.0.upvalues| && a.0.upvalues[a.1] == u)
            && (a.1 == -1 <==> |c[k].upvalues| == MAX_UPVALUES && u !in c[k].upvalues)
  {
    var s := c[k];
    var a := AddUpvalue(s, u);
    var d := outer + [a.0];
    forall i | 0 <= i < |a.0.upvalues|
      ensures Points(d[k - 1], a.0.upvalues[i])
    {
      if i < |s.upvalues| { assert Points(c[k - 1], s.upvalues[i]); }
    }
  }

  /** The last function has the entry u exactly when it has one that leads where u leads. */
  lemma EntryIff(c: Chain, outer: Chain, u: Upvalue, p: Place)
    requires WellFormed(c) && |c| >= 2 && WellFormed(outer) && Grew(Outer(c), outer) && Points(Last(outer), u)
    requires p == if u.isLocal then At(|c| - 2, u.index) else Follow(outer, |c| - 2, u.index)
    ensures u in Last(c).upvalues <==> Reaches(c, |c| - 1, p)
  {
    hide WellFormed, Follow;
    forall i | 0 <= i < |Last(c).upvalues|
      ensures Follow(c, |c| - 1, i) == p <==> Last(c).upvalues[i] == u
    {
      EntryIs(c, outer, u, p, i);
    }
    var ups := Last(c).upvalues;
    if u in ups {
      var i :| 0 <= i < |ups| && ups[i] == u;
      assert Follow(c, |c| - 1, i) == p;
    }
    if Reaches(c, |c| - 1, p) {
      var i :| 0 <= i < |ups| && Follow(c, |c| - 1, i) == p;
      assert ups[i] == u;
    }
  }

  lemma EntryIs(c: Chain, outer: Chain, u: Upvalue, p: Place, i: nat)
    requires WellFormed(c) && |c| >= 2 && WellFormed(outer) && Grew(Outer(c), outer) && Points(Last(outer), u)
    requires p == if u.isLocal then At(|c| - 2, u.index) else Follow(outer, |c| - 2, u.index)
    requires i < |Last(c).upvalues|
    ensures Follow(c, |c| - 1, i) == p <==> Last(c).upvalues[i] == u
  {
    hide ScopeGrew;
    var k := |c| - 1;
    var v := Last(c).upvalues[i];
    assert ScopeOk(c, k);
    if !v.isLocal {
      FollowInPrefix(c, k, k - 1, v.index);
      FollowAfterGrowth(Outer(c), outer, k - 1, v.index);
      MoreUpvalues(Outer(c), outer, k - 1);
      if !u.isLocal && Follow(c, k, i) == p {
        EntriesAreInjective(outer, k - 1, v.index, u.index);
      }
    }
  }

  lemma MoreUpvalues(c: Chain, d: Chain, k: nat)
    requires Grew(c, d) && k < |c|
    ensures |c[k].upvalues| <= |d[k].upvalues|
  {
    assert ScopeGrew(c[k], d[k]);
  }

  lemma StuckBelow(c: Chain, k: nat, p: Place)
    requires WellFormed(c) && k + 1 < |c| && WellFormed(Outer(c))
    ensures (Stuck(Outer(c), k, p) <==> Stuck(c, k, p))
  {
    hide WellFormed, Follow;
    var o := Outer(c);
    assert o[k] == c[k];
    forall i | 0 <= i < |c[k].upvalues|
      ensures Follow(o, k, i) == Follow(c, k, i)
    {
      FollowInPrefix(c, |c| - 1, k, i);
    }
    if Reaches(o, k, p) {
      var i :| 0 <= i < |o[k].upvalues| && Follow(o, k, i) == p;
      assert Follow(c, k, i) == p;
    }
    if Reaches(c, k, p) {
      var i :| 0 <= i < |c[k].upvalues| && Follow(c, k, i) == p;
      assert Follow(o, k, i) == p;
    }
  }

  lemma SomeStuckSplits(c: Chain, p: Place)
    requires WellFormed(c) && |c| >= 2 && p.At? && p.depth < |c| - 1
    ensures WellFormed(Outer(c))
    ensures SomeStuck(c, p) <==> SomeStuck(Outer(c), p) || Stuck(c, |c| - 1, p)
  {
    PrefixIsWellFormed(c, |c| - 1);
    hide Stuck;
    if SomeStuck(c, p) {
      var k :| p.depth < k < |c| && Stuck(c, k, p);
      if k < |c| - 1 { StuckBelow(c, k, p); }
    }
    if SomeStuck(Outer(c), p) {
      var k :| p.depth < k < |c| - 1 && Stuck(Outer(c), k, p);
      StuckBelow(c, k, p);
    }
  }

  lemma CaptureGrows(c: Chain, l: nat)
    requires WellFormed(c) && c != [] && l < |Last(c).locals|
    ensures WellFormed(Outer(c) + [Capture(Last(c), l)]) && Grew(c, Outer(c) + [Capture(Last(c), l)])
  {
    var d := Outer(c) + [Capture(Last(c), l)];
    var k := |c| - 1;
    assert ScopeOk(c, k) && ScopeOk(d, k) && ScopeGrew(c[k], d[k]);
    forall j | 0 <= j < k
      ensures ScopeOk(d, j) && ScopeGrew(c[j], d[j])
    {
      assert ScopeOk(c, j);
      SameScope(c, d, j);
    }
  }

  /** Following the answer reaches the innermost enclosing variable of the name;
      -1 means that there is none or a table on the way is full; entries handed
      out before keep their meaning. */
  lemma {:induction false} ResolveReachesBinding(c: Chain, name: Name)
    requires WellFormed(c) && c != []
    ensures Resolves(c, name, Resolve(c, name).0, Resolve(c, name).1)
    decreases |c|
  {
    hide WellFormed, SomeStuck;
    if |c| > 1 {
      PrefixIsWellFormed(c, |c| - 1);
      BindingIsBelow(c, name);
      var outer := Outer(c);
      assert Last(outer) == c[|c| - 2];
      var l := ResolveLocal(Last(outer).locals, name);
      if l != -1 {
        ResolveInPlace(c, name, l);
      } else {
        ResolveReachesBinding(outer, name);
        BindingIsBelow(outer, name);
        ResolveThrough(c, name);
      }
    }
  }

  lemma ResolveInPlace(c: Chain, name: Name, l: int)
    requires WellFormed(c) && |c| > 1
    requires l == ResolveLocal(c[|c| - 2].locals, name) && l >= 0
    ensures Resolves(c, name, Resolve(c, name).0, Resolve(c, name).1)
  {
    hide WellFormed, Grew, Stuck, SomeStuck, Reaches;
    PrefixIsWellFormed(c, |c| - 1);
    var outer := Outer(c);
    assert Last(outer) == c[|c| - 2];
    SizesFit(outer, |outer| - 1);
    CaptureGrows(outer, l);
    var grown := Outer(outer) + [Capture(Last(outer), l)];
    var u := Upvalue(l, true);
    AddOnTop(c, grown, u);
    var d := Resolve(c, name).0;
    assert d[|c| - 2] == Last(grown);
    EntryIff(c, grown, u, At(|c| - 2, l));
    StuckAtTop(c, At(|c| - 2, l));
  }

  lemma SizesFit(c: Chain, k: nat)
    requires WellFormed(c) && k < |c|
    ensures |c[k].locals| <= MAX_LOCALS && |c[k].upvalues| <= MAX_UPVALUES
  {
    assert ScopeOk(c, k);
  }

  // Directly under the variable's function only the last table matters.
  lemma StuckAtTop(c: Chain, p: Place)
    requires WellFormed(c) && |c| > 1 && p.At? && p.depth == |c| - 2
    ensures SomeStuck(c, p) <==> |Last(c).upvalues| == MAX_UPVALUES && !Reaches(c, |c| - 1, p)
  {
    hide Reaches;
    if SomeStuck(c, p) {
      var k :| p.depth < k < |c| && Stuck(c, k, p);
    }
    if |Last(c).upvalues| == MAX_UPVALUES && !Reaches(c, |c| - 1, p) {
      assert Stuck(c, |c| - 1, p);
    }
  }

  lemma ResolveThrough(c: Chain, name: Name)
    requires WellFormed(c) && |c| > 1 && WellFormed(Outer(c))
    requires ResolveLocal(c[|c| - 2].locals, name) == -1
    requires Resolves(Outer(c), name, Resolve(Outer(c), name).0, Resolve(Outer(c), name).1)
    requires Binding(Outer(c), name).At? ==> Binding(Outer(c), name).depth + 1 < |Outer(c)|
    ensures Resolves(c, name, Resolve(c, name).0, Resolve(c, name).1)
  {
    hide WellFormed, Stuck, SomeStuck, Reaches, Grew, Follow;
    var outer := Outer(c);
    assert Last(outer) == c[|c| - 2];
    var p := Binding(c, name);
    assert p == Binding(outer, name);
    var up := Resolve(outer, name);
    if p.At? {
      SomeStuckSplits(c, p);
    }
    if up.1 != -1 {
      ResolveOnTop(c, up.0, up.1, p);
    } else {
      KeepOnTop(c, up.0);
    }
  }

  // The last step of a resolution that goes through an enclosing function's entry.
  lemma ResolveOnTop(c: Chain, outer: Chain, idx: nat, p: Place)
    requires WellFormed(c) && |c| > 1 && WellFormed(outer) && Grew(Outer(c), outer)
    requires idx < MAX_UPVALUES && idx < |Last(outer).upvalues| && Follow(outer, |outer| - 1, idx) == p
    requires p.At? && p.local < |outer[p.depth].locals| && outer[p.depth].locals[p.local].captured
    ensures var a := AddUpvalue(Last(c), Upvalue(idx, false));
            var d := outer + [a.0];
            && WellFormed(d) && Grew(c, d) && -1 <= a.1 < MAX_UPVALUES
            && (a.1 == -1 <==> Stuck(c, |c| - 1, p))
            && (a.1 >= 0 ==> && a.1 < |Last(d).upvalues| && Follow(d, |d| - 1, a.1) == p
                             && p.local < |d[p.depth].locals| && d[p.depth].locals[p.local].captured)
  {
    hide WellFormed, Stuck, Reaches, Grew;
    var u := Upvalue(idx, false);
    assert |outer| == |c| - 1 by { GrewKeepsLength(Outer(c), outer); }
    AddOnTop(c, outer, u);
    EntryIff(c, outer, u, p);
    SizesFit(c, |c| - 1);
    StuckIs(c, p);
    var a := AddUpvalue(Last(c), u);
    var d := outer + [a.0];
    assert Outer(d) == outer;
    if a.1 != -1 {
      FollowInPrefix(d, |d| - 1, |d| - 2, idx);
    }
  }

  lemma GrewKeepsLength(c: Chain, d: Chain)
    requires Grew(c, d)
    ensures |c| == |d|
  {
  }

  lemma StuckIs(c: Chain, p: Place)
    requires WellFormed(c) && c != []
    ensures Stuck(c, |c| - 1, p) <==> |Last(c).upvalues| == MAX_UPVALUES && !Reaches(c, |c| - 1, p)
  {
  }

  lemma KeepOnTop(c: Chain, outer: Chain)
    requires WellFormed(c) && |c| >= 2 && WellFormed(outer) && Grew(Outer(c), outer)
    ensures WellFormed(outer + [Last(c)]) && Grew(c, outer + [Last(c)])
  {
    hide ScopeGrew;
    var d := outer + [Last(c)];
    var k := |c| - 1;
    assert ScopeGrew(Outer(c)[k - 1], outer[k - 1]) && ScopeOk(c, k);
    forall i | 0 <= i < |d[k].upvalues|
      ensures Points(d[k - 1], d[k].upvalues[i])
    {
      assert Points(c[k - 1], c[k].upvalues[i]);
      MoreUpvalues(Outer(c), outer, k - 1);
      SameLocals(Outer(c)[k - 1], outer[k - 1]);
    }
    assert ScopeOk(d, k);
    forall j | 0 <= j < k
      ensures ScopeOk(d, j) && ScopeGrew(c[j], d[j])
    {
      assert ScopeOk(outer, j) && ScopeGrew(Outer(c)[j], outer[j]);
      SameScope(outer, d, j);
    }
    GrewItself(c[k]);
  }

  lemma SameLocals(s: Scope, t: Scope)
    requires ScopeGrew(s, t)
    ensures |s.locals| == |t.locals|
  {
  }

  lemma GrewItself(s: Scope)
    ensures ScopeGrew(s, s)
  {
  }

  // ---- the running program ----

  type Cell = nat

  /** The cells a closure of function k holds: CLOSURE copies the cell of a local
      of the frame that runs it, or an upvalue of that frame's own closure. */
  ghost function Captured(c: Chain, k: nat, frames: seq<seq<Cell>>): (cells: seq<Cell>)
    requires WellFormed(c) && k < |c| && Fits(c, frames)
    ensures |cells| == |c[k].upvalues|
    decreases k
  {
    assert ScopeOk(c, k);
    if k == 0 then []
    else
      var around := Captured(c, k - 1, frames);
      seq(|c[k].upvalues|, i requires 0 <= i < |c[k].upvalues| =>
        var u := c[k].upvalues[i];
        if u.isLocal then frames[k - 1][u.index] else around[u.index])
  }

  ghost predicate Fits(c: Chain, frames: seq<seq<Cell>>) {
    |frames| == |c| && forall k :: 0 <= k < |c| ==> |frames[k]| == |c[k].locals|
  }

  lemma CapturedAt(c: Chain, k: nat, i: nat, frames: seq<seq<Cell>>)
    requires WellFormed(c) && k < |c| && Fits(c, frames) && i < |c[k].upvalues|
    ensures k > 0 && Points(c[k - 1], c[k].upvalues[i])
    ensures Captured(c, k, frames)[i]
         == var u := c[k].upvalues[i]; if u.isLocal then frames[k - 1][u.index] else Captured(c, k - 1, frames)[u.index]
  {
    assert ScopeOk(c, k);
  }

  /** Reading upvalue i of the running closure reads the variable it was resolved to. */
  lemma {:induction false} UpvalueIsTheVariable(c: Chain, k: nat, i: nat, frames: seq<seq<Cell>>)
    requires WellFormed(c) && k < |c| && Fits(c, frames) && i < |c[k].upvalues|
    ensures var p := Follow(c, k, i); Captured(c, k, frames)[i] == frames[p.depth][p.local]
    decreases k
  {
    hide Captured, WellFormed, Fits;
    CapturedAt(c, k, i, frames);
    if !c[k].upvalues[i].isLocal {
      UpvalueIsTheVariable(c, k - 1, c[k].upvalues[i].index, frames);
    }
  }
}
