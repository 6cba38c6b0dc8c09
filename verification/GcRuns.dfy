/** The collector as a state machine: everything the program can do to the heap
    between two collections, the collections themselves, and what holds over
    every run. */
module GcRuns {
  import opened GcHeap
  import opened GcSpec

  const ROOT_MAX := 65536

  datatype Op =
    | Push(v: Value)
    | PopN(n: nat)
    | SetRoot(slot: nat, v: Value)
    | SetPinned(slot: nat, v: Value)
    | Store(owner: Ref, slot: nat, v: Value)
    | New(body: Body, at: Ref)
    | Promote(obj: Ref)
    | MinorCollection
    | MajorCollection

  /** A value the program can have in hand: it was read from somewhere. */
  ghost predicate InHand(s: State, v: Value) {
    v.Ptr? ==> Reachable(s.heap, RootRefs(s), v.ref)
  }

  // ---- effects ----------------------------------------------------------

  function Remember(s: State, r: Ref): State {
    s.(remembered := s.remembered + [r])
  }

  /** A store into an object's field followed by the write barrier. */
  function AfterStore(s: State, owner: Ref, slot: nat, v: Value): State
    requires owner in s.heap && s.heap[owner].body.Container? && slot < |s.heap[owner].body.scanned|
  {
    var o := s.heap[owner];
    var h := s.heap[owner := o.(body := o.body.(scanned := o.body.scanned[slot := v]))];
    var t := s.(heap := h);
    if o.gen.Old? && YoungTarget(h, v) then Remember(t, owner) else t
  }

  function AfterPromote(s: State, r: Ref): State
    requires r in s.heap
  {
    if r !in s.young then s else
      var h := s.heap[r := s.heap[r].(gen := Old, age := 0)];
      var young := Kept(s.young, s.heap.Keys - {r});
      var t := s.(heap := h, young := young, youngCount := |young|, tenured := [r] + s.tenured,
                  oldCount := s.oldCount + 1);
      if ReferencesYoung(h, h[r].body) then Remember(t, r) else t
  }

  predicate CollectionDue(s: State) {
    s.noCollect == 0 && s.allocCount >= s.threshold
  }

  predicate MajorDue(s: State) {
    s.majorInterval != 0 && s.minorCollections % s.majorInterval == 0
  }

  /** What an allocation does before it takes memory. */
  ghost predicate MaybeCollected(s: State, s': State) {
    if CollectionDue(s) then
      exists mid :: Minor(s, mid) && if MajorDue(mid) then Major(mid, s') else s' == mid
    else s' == s
  }

  /** The new object, young, in front of its list, and in the hands of a caller
      that keeps it in a root. */
  function AfterInsert(s: State, r: Ref, body: Body): State {
    s.(heap := s.heap[r := Object(Young, 0, body)],
       young := [r] + s.young,
       youngCount := s.youngCount + 1,
       objectCount := s.objectCount + 1,
       allocCount := s.allocCount + 1,
       pinned := s.pinned + [Ptr(r)])
  }

  ghost predicate Step(s: State, op: Op, s': State) {
    match op
    case Push(v) =>
      InHand(s, v) && |s.roots| < ROOT_MAX && s' == s.(roots := s.roots + [v])
    case PopN(n) =>
      n <= |s.roots| && s' == s.(roots := s.roots[..|s.roots| - n])
    case SetRoot(i, v) =>
      InHand(s, v) && i < |s.roots| && s' == s.(roots := s.roots[i := v])
    case SetPinned(i, v) =>
      InHand(s, v) && i < |s.pinned| && s' == s.(pinned := s.pinned[i := v])
    case Store(owner, i, v) =>
      && InHand(s, Ptr(owner)) && InHand(s, v)
      && owner in s.heap && s.heap[owner].body.Container? && i < |s.heap[owner].body.scanned|
      && s' == AfterStore(s, owner, i, v)
    case New(body, r) =>
      && Edges(body) <= RootRefs(s)
      && exists mid :: MaybeCollected(s, mid) && r !in mid.heap && s' == AfterInsert(mid, r, body)
    case Promote(r) =>
      InHand(s, Ptr(r)) && r in s.heap && s' == AfterPromote(s, r)
    case MinorCollection => Minor(s, s')
    case MajorCollection => Major(s, s')
  }

  // ---- every step keeps the invariant -----------------------------------

  /** Moving values the program can read between roots is safe. */
  lemma RootsKeepInv(s: State, s': State, v: Value)
    requires Inv(s) && InHand(s, v)
    requires s' == s.(pinned := s'.pinned, roots := s'.roots)
    requires RootRefs(s') <= RootRefs(s) + Target(v)
    ensures Inv(s')
  {
    var rem := Elems(s.remembered);
    NoDanglingIffClosed(s.heap, RootRefs(s) + rem);
    var S :| Closed(s.heap, S) && RootRefs(s) + rem <= S;
    if v.Ptr? { ReachableStaysIn(s.heap, RootRefs(s), S, v.ref); }
    assert RootRefs(s') + rem <= S;
    NoDanglingIffClosed(s.heap, RootRefs(s') + rem);
  }

  lemma StoreIsClosed(h: Heap, S: set<Ref>, owner: Ref, i: nat, v: Value)
    requires Closed(h, S) && owner in S && Target(v) <= S
    requires h[owner].body.Container? && i < |h[owner].body.scanned|
    ensures var b := h[owner].body;
            Closed(h[owner := h[owner].(body := b.(scanned := b.scanned[i := v]))], S)
  {
    var b := h[owner].body;
    var b' := b.(scanned := b.scanned[i := v]);
    assert forall x :: x in b'.scanned ==> x in b.scanned || x == v;
    assert Edges(b') <= Edges(b) + Target(v);
    assert Edges(b) <= S;
    var h' := h[owner := h[owner].(body := b')];
    forall r | r in S
      ensures r in h' && Edges(h'[r].body) <= S
    {
      assert Edges(h[r].body) <= S;
    }
  }

  lemma StoreKeepsInv(s: State, owner: Ref, i: nat, v: Value)
    requires Inv(s) && InHand(s, Ptr(owner)) && InHand(s, v)
    requires owner in s.heap && s.heap[owner].body.Container? && i < |s.heap[owner].body.scanned|
    ensures Inv(AfterStore(s, owner, i, v))
  {
    var s' := AfterStore(s, owner, i, v);
    var rem := Elems(s.remembered);
    assert Lists(s') && forall r :: r in s'.remembered ==> r in s'.tenured;
    assert NoDangling(s'.heap, RootRefs(s') + Elems(s'.remembered)) by {
      hide Lists, Closed, Edges;
      NoDanglingIffClosed(s.heap, RootRefs(s) + rem);
      var S :| Closed(s.heap, S) && RootRefs(s) + rem <= S;
      ReachableStaysIn(s.heap, RootRefs(s), S, owner);
      if v.Ptr? { ReachableStaysIn(s.heap, RootRefs(s), S, v.ref); }
      StoreIsClosed(s.heap, S, owner, i, v);
      assert RootRefs(s') + Elems(s'.remembered) <= S;
      NoDanglingIffClosed(s'.heap, RootRefs(s') + Elems(s'.remembered));
    }
  }

  lemma PromotePartition(h: Heap, young: seq<Ref>, tenured: seq<Ref>, r: Ref)
    requires Partition(h, young, tenured) && r in young
    ensures Partition(h[r := h[r].(gen := Old, age := 0)], Kept(young, h.Keys - {r}), [r] + tenured)
  {
    KeptDistinct(young, h.Keys - {r});
    assert r !in tenured;
  }

  lemma PromoteKeepsLists(s: State, r: Ref)
    requires Lists(s) && r in s.young
    ensures Lists(AfterPromote(s, r))
  {
    hide Partition;
    var keep := s.heap.Keys - {r};
    PromotePartition(s.heap, s.young, s.tenured, r);
    assert |s.young| == |Kept(s.young, keep)| + 1 by {
      YoungAreAllocated(s);
      KeptSplitSize(s.young, s.heap.Keys, keep, {r});
      KeptAll(s.young, s.heap.Keys);
      KeptOne(s.young, r);
    }
  }

  lemma YoungAreAllocated(s: State)
    requires Lists(s)
    ensures Elems(s.young) <= s.heap.Keys && Distinct(s.young)
  {
  }

  lemma {:induction false} KeptAll(s: seq<Ref>, keep: set<Ref>)
    requires Elems(s) <= keep
    ensures Kept(s, keep) == s
  {
    if s != [] {
      assert s[|s| - 1] in s;
      assert Elems(s[..|s| - 1]) <= Elems(s);
      KeptAll(s[..|s| - 1], keep);
    }
  }

  lemma {:induction false} KeptOne(s: seq<Ref>, r: Ref)
    requires Distinct(s)
    ensures Kept(s, {r}) == if r in s then [r] else []
  {
    if s != [] {
      KeptOne(s[..|s| - 1], r);
    }
  }

  lemma PromoteKeepsInv(s: State, r: Ref)
    requires Inv(s) && InHand(s, Ptr(r)) && r in s.heap
    ensures Inv(AfterPromote(s, r))
  {
    if r in s.young {
      var s' := AfterPromote(s, r);
      PromoteKeepsLists(s, r);
      var rem := Elems(s.remembered);
      NoDanglingIffClosed(s.heap, RootRefs(s) + rem);
      var S :| Closed(s.heap, S) && RootRefs(s) + rem <= S;
      ReachableStaysIn(s.heap, RootRefs(s), S, r);
      forall x | x in S
        ensures x in s'.heap && Edges(s'.heap[x].body) <= S
      {
        assert Edges(s.heap[x].body) <= S;
      }
      assert Closed(s'.heap, S);
      NoDanglingIffClosed(s'.heap, RootRefs(s') + Elems(s'.remembered));
    }
  }

  lemma InsertKeepsInv(s: State, r: Ref, body: Body)
    requires Inv(s) && r !in s.heap && Edges(body) <= RootRefs(s)
    ensures Inv(AfterInsert(s, r, body))
  {
    var s' := AfterInsert(s, r, body);
    var rem := Elems(s.remembered);
    NoDanglingIffClosed(s.heap, RootRefs(s) + rem);
    var S :| Closed(s.heap, S) && RootRefs(s) + rem <= S;
    var S' := S + {r};
    forall x | x in S'
      ensures x in s'.heap && Edges(s'.heap[x].body) <= S'
    {
      if x != r { assert Edges(s.heap[x].body) <= S; }
    }
    assert Closed(s'.heap, S');
    assert RootRefs(s') <= RootRefs(s) + {r};
    NoDanglingIffClosed(s'.heap, RootRefs(s') + Elems(s'.remembered));
  }

  lemma CollectionsKeepRoots(s: State, s': State)
    requires Minor(s, s') || Major(s, s')
    ensures s'.pinned == s.pinned && s'.roots == s.roots
  {
    hide LeastLive;
  }

  lemma MaybeCollectedKeepsInv(s: State, s': State)
    requires Inv(s) && MaybeCollected(s, s')
    ensures Inv(s') && RootRefs(s') == RootRefs(s)
  {
    hide Inv, Minor, Major;
    if CollectionDue(s) {
      var mid :| Minor(s, mid) && if MajorDue(mid) then Major(mid, s') else s' == mid;
      MinorKeepsInv(s, mid);
      CollectionsKeepRoots(s, mid);
      if MajorDue(mid) {
        MajorKeepsInv(mid, s');
        CollectionsKeepRoots(mid, s');
      }
    }
  }

  lemma StepKeepsInv(s: State, op: Op, s': State)
    requires Inv(s) && Step(s, op, s')
    ensures Inv(s')
  {
    hide Inv, Minor, Major, MaybeCollected, InHand;
    match op
    case Push(v) => RootsKeepInv(s, s', v);
    case PopN(n) => NothingInHand(s); RootsKeepInv(s, s', FALSE_VALUE);
    case SetRoot(i, v) => RootsKeepInv(s, s', v);
    case SetPinned(i, v) => RootsKeepInv(s, s', v);
    case Store(owner, i, v) => StoreKeepsInv(s, owner, i, v);
    case New(body, r) =>
      var mid :| MaybeCollected(s, mid) && r !in mid.heap && s' == AfterInsert(mid, r, body);
      MaybeCollectedKeepsInv(s, mid);
      InsertKeepsInv(mid, r, body);
    case Promote(r) => PromoteKeepsInv(s, r);
    case MinorCollection => MinorKeepsInv(s, s');
    case MajorCollection => MajorKeepsInv(s, s');
  }

  lemma NothingInHand(s: State)
    ensures InHand(s, FALSE_VALUE)
  {
  }

  // ---- runs -------------------------------------------------------------

  ghost predicate IsRun(states: seq<State>, ops: seq<Op>) {
    && |states| == |ops| + 1
    && forall i :: 0 <= i < |ops| ==> Step(states[i], ops[i], states[i + 1])
  }

  /** Over every run no pointer the program or the collector follows dangles,
      nothing stays marked, and lists, generation bits and counts agree. */
  lemma {:induction false} RunKeepsInv(states: seq<State>, ops: seq<Op>)
    requires IsRun(states, ops) && Inv(states[0])
    ensures forall i :: 0 <= i < |states| ==> Inv(states[i])
    decreases |ops|
  {
    hide Inv, Step;
    if |ops| > 0 {
      StepKeepsInv(states[0], ops[0], states[1]);
      RunKeepsInv(states[1..], ops[1..]);
      forall i | 0 <= i < |states|
        ensures Inv(states[i])
      {
        if i > 0 { assert states[i] == states[1..][i - 1]; }
      }
    }
  }

  // ---- what a collection keeps ------------------------------------------

  lemma InvBoundsLive(s: State, extra: set<Ref>, live: set<Ref>)
    requires Inv(s) && LeastLive(s.heap, RootRefs(s), extra, live) && extra <= Elems(s.remembered)
    ensures live <= s.heap.Keys
  {
    var seeds := RootRefs(s);
    NoDanglingIffClosed(s.heap, seeds + Elems(s.remembered));
    var S :| Closed(s.heap, S) && seeds + Elems(s.remembered) <= S;
    BrokenIsClosed(s.heap, S, seeds, extra, live);
  }

  /** A major collection frees exactly what is not live; it breaks exactly the
      surviving ephemerons whose key is not live and changes no other object. */
  lemma MajorKeepsExactlyLive(s: State, s': State, live: set<Ref>)
    requires Inv(s) && Major(s, s') && LeastLive(s.heap, RootRefs(s), {}, live)
    ensures s'.heap.Keys == live
    ensures forall r :: r in live && r in s.heap ==>
              r in s'.heap
              && s'.heap[r] == if IsEphemeron(s.heap, r) && !KeyLive(s.heap[r].body, live) then Break(s.heap[r]) else s.heap[r]
  {
    var l :| LeastLive(s.heap, RootRefs(s), {}, l) && s' == AfterMajor(s, l);
    LeastLiveIsUnique(s.heap, RootRefs(s), {}, live, l);
    InvBoundsLive(s, {}, live);
  }

  lemma LiveGrows(h: Heap, seeds: set<Ref>, extra: set<Ref>, live: set<Ref>, more: set<Ref>)
    requires LeastLive(h, seeds, {}, live) && LeastLive(h, seeds, extra, more)
    ensures live <= more
  {
    assert LiveClosed(h, seeds, {}, more);
  }

  /** What became of a live object: it is still there with its contents, or it is
      an ephemeron with a dead key and was broken. */
  ghost predicate Survives(h: Heap, h': Heap, live: set<Ref>, r: Ref) {
    && r in h && r in h'
    && (h'[r].body == h[r].body
        || (IsEphemeron(h, r) && !KeyLive(h[r].body, live) && h'[r].body == Break(h[r]).body))
  }

  lemma SurvivesTwice(h: Heap, mid: Heap, h': Heap, live: set<Ref>, live2: set<Ref>, r: Ref)
    requires Survives(h, mid, live, r) && Survives(mid, h', live2, r) && live <= live2
    ensures Survives(h, h', live, r)
  {
  }

  lemma MinorKeepsLive(s: State, s': State, live: set<Ref>)
    requires Inv(s) && Minor(s, s') && LeastLive(s.heap, RootRefs(s), {}, live)
    ensures forall r :: r in live ==> Survives(s.heap, s'.heap, live, r)
    ensures forall r :: r in s.tenured ==> r in s'.heap
  {
    var more :| LeastLive(s.heap, RootRefs(s), Elems(s.remembered), more) && s' == AfterMinor(s, more);
    LiveGrows(s.heap, RootRefs(s), Elems(s.remembered), live, more);
    InvBoundsLive(s, Elems(s.remembered), more);
    var broken := MinorBroken(s, more);
    forall r | r in live
      ensures Survives(s.heap, s'.heap, live, r)
    {
      assert r in more && r in broken && s'.heap[r].body == broken[r].body;
    }
    assert forall r :: r in s.tenured ==> r !in s.young;
  }

  // The heap after a minor collection, object by object.
  lemma MinorObjects(s: State, live: set<Ref>)
    requires Inv(s) && live <= s.heap.Keys
    ensures var h' := AfterMinor(s, live).heap;
            && (forall r :: r in h' <==> r in s.heap && (r in s.tenured || r in live))
            && (forall r :: r in h' ==> h'[r].body == MinorBroken(s, live)[r].body)
            && (forall r :: r in h' && h'[r].body.Container? ==> h'[r].body == s.heap[r].body)
            && (forall v :: YoungTarget(h', v) ==> YoungTarget(s.heap, v))
            && (forall r :: r in s.tenured ==> h'[r].gen.Old?)
            && (forall r :: r in s.heap && r !in h' ==> s.heap[r].gen.Young?)
    ensures var s' := AfterMinor(s, live);
            forall r :: r in s'.remembered <==>
              r in PointsToYoung(s'.heap) && (r in s.remembered || (r in s.young && r in s'.tenured))
  {
    var s' := AfterMinor(s, live);
    assert forall r :: r in s.tenured ==> r !in s.young;
    forall r | r in PointsToYoung(s'.heap) && r in s.young && r in s'.tenured
      ensures r in s'.remembered
    {
    }
  }

  /** A minor collection frees exactly the young objects that are live neither
      from the roots nor from a remembered object. */
  lemma MinorFreesOnlyDeadYoung(s: State, s': State, live: set<Ref>)
    requires Inv(s) && Minor(s, s') && LeastLive(s.heap, RootRefs(s), Elems(s.remembered), live)
    ensures s'.heap.Keys == Elems(s.tenured) + live
  {
    var l :| LeastLive(s.heap, RootRefs(s), Elems(s.remembered), l) && s' == AfterMinor(s, l);
    LeastLiveIsUnique(s.heap, RootRefs(s), Elems(s.remembered), live, l);
    InvBoundsLive(s, Elems(s.remembered), live);
    hide AfterMinor, LeastLive;
    MinorObjects(s, live);
  }

  // ---- the remembered set -----------------------------------------------

  /** The generational promise: an old container refers to allocated objects
      only, and is remembered as long as one of them is young. */
  ghost predicate RememberedComplete(s: State) {
    forall r :: r in s.tenured && r in s.heap && s.heap[r].body.Container? ==>
      && Targets(s.heap[r].body.scanned) <= s.heap.Keys
      && (ReferencesYoung(s.heap, s.heap[r].body) ==> r in s.remembered)
  }

  lemma ScannedAreStrong(b: Body)
    requires b.Container?
    ensures Targets(b.scanned) <= Strong(b)
  {
    assert forall v :: v in b.scanned ==> v in Traced(b);
  }

  ghost predicate PromiseFor(h: Heap, remembered: seq<Ref>, r: Ref) {
    r in h && h[r].body.Container? ==>
      && Targets(h[r].body.scanned) <= h.Keys
      && (ReferencesYoung(h, h[r].body) ==> r in remembered)
  }

  // One old object across a minor collection, from the facts of MinorObjects.
  lemma MinorKeepsPromise(h: Heap, h': Heap, rem: seq<Ref>, rem': seq<Ref>, live: set<Ref>, r: Ref)
    requires r in h && r in h' && h'[r].body == h[r].body && h[r].body.Container?
    requires forall v :: YoungTarget(h', v) ==> YoungTarget(h, v)
    requires live <= h'.Keys && forall x :: x in h && x !in h' ==> h[x].gen.Young?
    requires r in rem || !PromiseFor(h, rem, r) ==>
               Strong(h[r].body) <= live && (ReferencesYoung(h', h[r].body) ==> r in rem')
    ensures PromiseFor(h', rem', r)
  {
    var b := h[r].body;
    ScannedAreStrong(b);
    forall v | v in b.scanned && v.Ptr?
      ensures v.ref in h'
    {
      assert v.ref in Targets(b.scanned);
      if r !in rem && PromiseFor(h, rem, r) {
        assert !YoungTarget(h, v);
      }
    }
    if ReferencesYoung(h', b) {
      var v :| v in b.scanned && YoungTarget(h', v);
      assert YoungTarget(h, v);
    }
  }

  /** A minor collection keeps the promise, objects it promotes included. */
  lemma MinorKeepsRemembered(s: State, s': State)
    requires Inv(s) && Minor(s, s') && RememberedComplete(s)
    ensures RememberedComplete(s')
  {
    var rem := Elems(s.remembered);
    var live :| LeastLive(s.heap, RootRefs(s), rem, live) && s' == AfterMinor(s, live);
    InvBoundsLive(s, rem, live);
    hide AfterMinor, PromiseFor, Minor, LeastLive, Inv;
    MinorKeepsLists(s, live);
    forall r | r in s'.tenured && r in s'.heap && s'.heap[r].body.Container?
      ensures PromiseFor(s'.heap, s'.remembered, r)
    {
      MinorKeepsPromiseOf(s, live, r);
    }
    PromisesMakeComplete(s');
  }

  lemma PromisesMakeComplete(s: State)
    requires forall r :: r in s.tenured && r in s.heap && s.heap[r].body.Container? ==> PromiseFor(s.heap, s.remembered, r)
    ensures RememberedComplete(s)
  {
    hide ReferencesYoung, Targets;
  }

  lemma MinorKeepsPromiseOf(s: State, live: set<Ref>, r: Ref)
    requires Inv(s) && RememberedComplete(s) && live <= s.heap.Keys
    requires LeastLive(s.heap, RootRefs(s), Elems(s.remembered), live)
    requires r in AfterMinor(s, live).tenured && r in AfterMinor(s, live).heap
    requires AfterMinor(s, live).heap[r].body.Container?
    ensures PromiseFor(AfterMinor(s, live).heap, AfterMinor(s, live).remembered, r)
  {
    MinorObjects(s, live);
    MinorKeepsLists(s, live);
    var s' := AfterMinor(s, live);
    hide AfterMinor, YoungTarget, ReferencesYoung, PointsToYoung, Strong, Targets, LeastLive, MinorBroken, Inv, LeastLive;
    InPointsToYoung(s'.heap, r);
    assert r in s.tenured ==> PromiseFor(s.heap, s.remembered, r);
    if r in live + Elems(s.remembered) {
      RememberedHoldStrong(s.heap, RootRefs(s), Elems(s.remembered), live, r);
    }
    MinorKeepsPromise(s.heap, s'.heap, s.remembered, s'.remembered, live, r);
  }

  lemma InPointsToYoung(h: Heap, r: Ref)
    requires r in h
    ensures r in PointsToYoung(h) <==> h[r].gen.Old? && ReferencesYoung(h, h[r].body)
  {
  }

  // A major collection leaves nothing remembered, so the promise then says that
  // no old object refers to a young one.
  lemma NothingRememberedAfterMajor(s: State, s': State)
    requires Inv(s) && Major(s, s')
    ensures RememberedComplete(s') <==> PointsToYoung(s'.heap) == {}
  {
    var live :| LeastLive(s.heap, RootRefs(s), {}, live) && s' == AfterMajor(s, live);
    MajorKeepsLists(s, live);
    MajorKeepsExactlyLive(s, s', live);
    assert s'.remembered == [];
    hide AfterMajor, ReferencesYoung, PointsToYoung, Targets, Strong, LeastLive;
    forall r | r in s'.tenured && r in s'.heap
      ensures r in PointsToYoung(s'.heap) <==> ReferencesYoung(s'.heap, s'.heap[r].body)
      ensures s'.heap[r].body.Container? ==> Targets(s'.heap[r].body.scanned) <= s'.heap.Keys
    {
      InPointsToYoung(s'.heap, r);
      if s'.heap[r].body.Container? {
        ScannedAreStrong(s.heap[r].body);
        LeastLiveHoldsStrong(s.heap, RootRefs(s), live, r);
      }
    }
    OnlyOldPointToYoung(s'.heap);
  }

  /** A major collection empties the remembered set without promoting the young
      objects: the promise survives it exactly when no live old object refers to a
      young one before it.  Safety (RunKeepsInv) does not rest on the promise: a
      minor collection traces through old objects again. */
  lemma MajorKeepsRememberedIff(s: State, s': State, live: set<Ref>)
    requires Inv(s) && Major(s, s') && LeastLive(s.heap, RootRefs(s), {}, live)
    ensures RememberedComplete(s') <==> live * PointsToYoung(s.heap) == {}
  {
    hide Inv, Major, RememberedComplete, PointsToYoung, LeastLive, Strong;
    NothingRememberedAfterMajor(s, s');
    MajorKeepsExactlyLive(s, s', live);
    InvBoundsLive(s, {}, live);
    forall r | r in live
      ensures Strong(s.heap[r].body) <= live
    {
      LeastLiveHoldsStrong(s.heap, RootRefs(s), live, r);
    }
    SurvivorsPointAlike(s.heap, s'.heap, live);
  }

  lemma SurvivorsPointAlike(h: Heap, h': Heap, live: set<Ref>)
    requires h'.Keys == live <= h.Keys
    requires forall r :: r in live ==> Strong(h[r].body) <= live
    requires forall r :: r in live ==> h'[r] == h[r] || (IsEphemeron(h, r) && h'[r] == Break(h[r]))
    ensures PointsToYoung(h') == live * PointsToYoung(h)
  {
    hide PointsToYoung, Strong;
    OnlyOldPointToYoung(h);
    OnlyOldPointToYoung(h');
    forall r | r in live
      ensures r in PointsToYoung(h) <==> r in PointsToYoung(h')
    {
      if h[r].body.Container? {
        SameYoung(h, h', live, r);
      }
    }
  }

  lemma SameYoung(h: Heap, h': Heap, live: set<Ref>, r: Ref)
    requires r in h && r in h' && h'[r] == h[r] && h[r].body.Container? && Strong(h[r].body) <= live
    requires forall x :: x in live ==> x in h && x in h' && h'[x].gen == h[x].gen
    ensures r in PointsToYoung(h) <==> r in PointsToYoung(h')
  {
    InPointsToYoung(h, r);
    InPointsToYoung(h', r);
    ScannedAreStrong(h[r].body);
    forall v | v in h[r].body.scanned
      ensures YoungTarget(h, v) <==> YoungTarget(h', v)
    {
      if v.Ptr? { assert v.ref in Targets(h[r].body.scanned); }
    }
  }

  /** An old container in a root that refers to a young object, remembered. */
  function OldHoldsYoung(): State {
    var old1 := Object(Old, 0, Container([Ptr(2)], []));
    State(map[1 := old1, 2 := Object(Young, 0, Container([], []))], [2], [1], {}, [1], [], [], [Ptr(1)],
          1, 1, 2, 0, 1024, 0, 0, 2, 4, 0)
  }

  /** A major collection of that state keeps both objects and loses the promise. */
  lemma MajorLosesThePromise() returns (s': State)
    ensures Inv(OldHoldsYoung()) && RememberedComplete(OldHoldsYoung()) && Major(OldHoldsYoung(), s')
    ensures s'.heap == OldHoldsYoung().heap && !RememberedComplete(s')
  {
    hide Inv, LeastLive, RememberedComplete, PointsToYoung;
    var s := OldHoldsYoung();
    OldHoldsYoungIsInv();
    OldHoldsYoungIsLive();
    s' := AfterMajor(s, {1, 2});
    MajorKeepsExactlyLive(s, s', {1, 2});
    MajorKeepsRememberedIff(s, s', {1, 2});
    InPointsToYoung(s.heap, 1);
    assert s.heap[1].body.scanned[0] == Ptr(2) && YoungTarget(s.heap, Ptr(2));
    assert 1 in {1, 2} * PointsToYoung(s.heap);
  }

  lemma OldHoldsYoungEdges()
    ensures var s := OldHoldsYoung();
            RootRefs(s) == {1} && Strong(s.heap[1].body) == Edges(s.heap[1].body) == {2}
            && Strong(s.heap[2].body) == Edges(s.heap[2].body) == {}
  {
    var s := OldHoldsYoung();
    assert Ptr(2) in s.heap[1].body.scanned + [];
    assert Ptr(1) in s.roots;
  }

  lemma OldHoldsYoungIsLive()
    ensures LeastLive(OldHoldsYoung().heap, RootRefs(OldHoldsYoung()), {}, {1, 2})
  {
    hide RootRefs, Strong, Edges;
    OldHoldsYoungEdges();
  }

  lemma OldHoldsYoungIsInv()
    ensures Inv(OldHoldsYoung()) && RememberedComplete(OldHoldsYoung())
  {
    hide RootRefs, Strong, Edges;
    var s := OldHoldsYoung();
    OldHoldsYoungEdges();
    assert Closed(s.heap, {1, 2});
    assert RememberedComplete(s) by { assert Targets([Ptr(2)]) <= {2}; }
    NoDanglingIffClosed(s.heap, RootRefs(s) + Elems(s.remembered));
  }

  lemma RememberedHoldStrong(h: Heap, seeds: set<Ref>, extra: set<Ref>, live: set<Ref>, r: Ref)
    requires LeastLive(h, seeds, extra, live) && r in live + extra && r in h
    ensures Strong(h[r].body) <= live
  {
  }

  lemma LeastLiveHoldsStrong(h: Heap, seeds: set<Ref>, live: set<Ref>, r: Ref)
    requires LeastLive(h, seeds, {}, live) && r in live && r in h
    ensures Strong(h[r].body) <= live
  {
  }

  lemma OnlyOldPointToYoung(h: Heap)
    ensures forall r :: r in PointsToYoung(h) ==> r in h && h[r].gen.Old? && h[r].body.Container?
                                                  && ReferencesYoung(h, h[r].body)
  {
  }

  // ---- over runs --------------------------------------------------------

  lemma MajorKeepsLive(s: State, s': State, live: set<Ref>)
    requires Inv(s) && Major(s, s') && LeastLive(s.heap, RootRefs(s), {}, live)
    ensures forall r :: r in live ==> Survives(s.heap, s'.heap, live, r)
  {
    MajorKeepsExactlyLive(s, s', live);
  }

  /** Breaking ephemerons does not make the live set smaller. */
  lemma LiveAfterMinor(s: State, mid: State, live: set<Ref>, live2: set<Ref>)
    requires Inv(s) && Minor(s, mid)
    requires LeastLive(s.heap, RootRefs(s), {}, live) && LeastLive(mid.heap, RootRefs(mid), {}, live2)
    ensures live <= live2
  {
    var rem := Elems(s.remembered);
    var more :| LeastLive(s.heap, RootRefs(s), rem, more) && mid == AfterMinor(s, more);
    InvBoundsLive(s, rem, more);
    MinorObjects(s, more);
    hide AfterMinor;
    CollectionsKeepRoots(s, mid);
    LiveInMid(s, more, mid.heap, RootRefs(s));
    assert live2 <= more;
    LiveBefore(s.heap, mid.heap, RootRefs(s), rem, more, live2);
  }

  lemma LiveInMid(s: State, more: set<Ref>, h': Heap, seeds: set<Ref>)
    requires LiveClosed(s.heap, seeds, Elems(s.remembered), more)
    requires forall r :: r in h' ==> r in s.heap && h'[r].body == MinorBroken(s, more)[r].body
    ensures LiveClosed(h', seeds, {}, more)
  {
    assert more + {} == more;
    forall e | e in more && IsEphemeron(h', e) && KeyLive(h'[e].body, more)
      ensures Target(h'[e].body.value) <= more
    {
      assert e in more + Elems(s.remembered);
    }
  }

  lemma LiveBefore(h: Heap, h': Heap, seeds: set<Ref>, rem: set<Ref>, more: set<Ref>, live2: set<Ref>)
    requires LiveClosed(h', seeds, {}, live2) && live2 <= more <= h'.Keys && more <= h.Keys
    requires var broken := BreakAll(h, DeadEphemerons(h, more + rem, more));
             forall r :: r in h' ==> r in h && h'[r].body == broken[r].body
    ensures LiveClosed(h, seeds, {}, live2)
  {
    assert live2 + {} == live2;
    forall e | e in live2 && IsEphemeron(h, e) && KeyLive(h[e].body, live2)
      ensures Target(h[e].body.value) <= live2
    {
      assert e in more + rem && KeyLive(h[e].body, more);
      assert h'[e].body == h[e].body;
    }
  }

  lemma MaybeCollectedKeepsLive(s: State, s': State, live: set<Ref>)
    requires Inv(s) && MaybeCollected(s, s') && LeastLive(s.heap, RootRefs(s), {}, live)
    ensures forall r :: r in live ==> Survives(s.heap, s'.heap, live, r)
  {
    hide Inv, Minor, LeastLive, Survives, AfterMajor;
    InvBoundsLive(s, {}, live);
    if CollectionDue(s) {
      var mid :| Minor(s, mid) && if MajorDue(mid) then Major(mid, s') else s' == mid;
      MinorKeepsLive(s, mid, live);
      if MajorDue(mid) {
        MinorKeepsInv(s, mid);
        var live2 :| LeastLive(mid.heap, RootRefs(mid), {}, live2) && s' == AfterMajor(mid, live2);
        LiveAfterMinor(s, mid, live, live2);
        MajorKeepsLive(mid, s', live2);
        forall r | r in live
          ensures Survives(s.heap, s'.heap, live, r)
        {
          SurvivesTwice(s.heap, mid.heap, s'.heap, live, live2, r);
        }
      }
    } else {
      AllSurvive(s.heap, live);
    }
  }

  lemma AllSurvive(h: Heap, live: set<Ref>)
    requires live <= h.Keys
    ensures forall r :: r in live ==> Survives(h, h, live, r)
  {
  }

  /** What one operation leaves of a live object: its address is not given to
      another one, and its contents stay, but for the field a store names and for
      an ephemeron with a dead key, which may be broken. */
  ghost predicate KeptByStep(s: State, op: Op, s': State, live: set<Ref>, r: Ref) {
    && r in s.heap && r in s'.heap
    && (op.New? ==> op.at != r)
    && if op.Store? && op.owner == r then
         && s.heap[r].body.Container? && op.slot < |s.heap[r].body.scanned|
         && s'.heap[r].body == s.heap[r].body.(scanned := s.heap[r].body.scanned[op.slot := op.v])
       else Survives(s.heap, s'.heap, live, r)
  }

  /** No step frees an object that is live from the roots, reuses its address, or
      changes more of it than it says. */
  lemma StepKeepsLive(s: State, op: Op, s': State, live: set<Ref>)
    requires Inv(s) && Step(s, op, s') && LeastLive(s.heap, RootRefs(s), {}, live)
    ensures forall r :: r in live ==> KeptByStep(s, op, s', live, r)
  {
    hide Inv, Minor, Major, MaybeCollected, LeastLive, InHand;
    InvBoundsLive(s, {}, live);
    AllSurvive(s.heap, live);
    match op
    case New(body, r) =>
      var mid :| MaybeCollected(s, mid) && r !in mid.heap && s' == AfterInsert(mid, r, body);
      MaybeCollectedKeepsLive(s, mid, live);
    case MinorCollection => MinorKeepsLive(s, s', live);
    case MajorCollection => MajorKeepsLive(s, s', live);
    case _ =>
  }

  /** Over every run an object stays itself through each step that finds it live. */
  lemma RunKeepsLive(states: seq<State>, ops: seq<Op>, i: nat, live: set<Ref>)
    requires IsRun(states, ops) && Inv(states[0]) && i < |ops|
    requires LeastLive(states[i].heap, RootRefs(states[i]), {}, live)
    ensures forall r :: r in live ==> KeptByStep(states[i], ops[i], states[i + 1], live, r)
  {
    hide Inv, Step, LeastLive, KeptByStep;
    RunKeepsInv(states, ops);
    StepKeepsLive(states[i], ops[i], states[i + 1], live);
  }
}
