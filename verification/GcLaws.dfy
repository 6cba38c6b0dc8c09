/** Laws of the program's own steps: what a store, a promotion and an allocation
    leave remembered, readable and counted, one step at a time and over runs. */
module GcLaws {
  import opened GcHeap
  import opened GcSpec
  import opened GcRuns

  // ---- the generational promise between major collections -----------------

  /** The step runs a major collection: it is one, or an allocation that is due for
      a collection whose turn it is to be followed by a major one. */
  predicate CollectsMajor(s: State, op: Op) {
    || op.MajorCollection?
    || (op.New? && CollectionDue(s) && s.majorInterval != 0 && (s.minorCollections + 1) % s.majorInterval == 0)
  }

  lemma MinorCounts(s: State, s': State)
    requires Minor(s, s')
    ensures s'.minorCollections == s.minorCollections + 1 && s'.majorInterval == s.majorInterval
    ensures s'.promotionAge == s.promotionAge && s'.noCollect == s.noCollect
    ensures s'.allocCount == 0 && s'.threshold == 2 * s'.objectCount + DEFAULT_THRESHOLD
  {
    hide LeastLive;
  }

  lemma MajorCounts(s: State, s': State)
    requires Major(s, s')
    ensures s'.minorCollections == s.minorCollections && s'.majorInterval == s.majorInterval
    ensures s'.promotionAge == s.promotionAge && s'.noCollect == s.noCollect
    ensures s'.allocCount == 0 && s'.threshold == 2 * s'.objectCount + DEFAULT_THRESHOLD
  {
    hide LeastLive;
  }

  lemma InHandAllocated(s: State, v: Value)
    requires Inv(s) && InHand(s, v)
    ensures Target(v) <= s.heap.Keys
  {
    var rem := Elems(s.remembered);
    NoDanglingIffClosed(s.heap, RootRefs(s) + rem);
    var S :| Closed(s.heap, S) && RootRefs(s) + rem <= S;
    if v.Ptr? { ReachableStaysIn(s.heap, RootRefs(s), S, v.ref); }
  }

  lemma InHandFieldsAllocated(s: State, r: Ref)
    requires Inv(s) && InHand(s, Ptr(r))
    ensures r in s.heap && Edges(s.heap[r].body) <= s.heap.Keys
  {
    var rem := Elems(s.remembered);
    NoDanglingIffClosed(s.heap, RootRefs(s) + rem);
    var S :| Closed(s.heap, S) && RootRefs(s) + rem <= S;
    ReachableStaysIn(s.heap, RootRefs(s), S, r);
  }

  lemma StoreKeepsRemembered(s: State, owner: Ref, i: nat, v: Value)
    requires Inv(s) && RememberedComplete(s) && Target(v) <= s.heap.Keys
    requires owner in s.heap && s.heap[owner].body.Container? && i < |s.heap[owner].body.scanned|
    ensures RememberedComplete(AfterStore(s, owner, i, v))
  {
    var s' := AfterStore(s, owner, i, v);
    var b, b' := s.heap[owner].body, s'.heap[owner].body;
    assert forall w :: w in b'.scanned ==> w in b.scanned || w == v;
    assert forall w :: YoungTarget(s'.heap, w) <==> YoungTarget(s.heap, w);
    hide Inv, YoungTarget;
    forall r | r in s'.tenured && r in s'.heap && s'.heap[r].body.Container?
      ensures Targets(s'.heap[r].body.scanned) <= s'.heap.Keys
      ensures ReferencesYoung(s'.heap, s'.heap[r].body) ==> r in s'.remembered
    {
      if r == owner {
        assert Targets(b.scanned) <= s.heap.Keys;
        OwnerIsOld(s, owner);
      } else {
        assert ReferencesYoung(s'.heap, s'.heap[r].body) ==> ReferencesYoung(s.heap, s.heap[r].body);
      }
    }
  }

  lemma OwnerIsOld(s: State, r: Ref)
    requires Inv(s) && r in s.tenured
    ensures r in s.heap && s.heap[r].gen.Old?
  {
  }

  lemma PromoteKeepsRemembered(s: State, r: Ref)
    requires Inv(s) && RememberedComplete(s) && InHand(s, Ptr(r)) && r in s.heap
    ensures RememberedComplete(AfterPromote(s, r))
  {
    InHandFieldsAllocated(s, r);
    if r in s.young {
      var s' := AfterPromote(s, r);
      assert forall w :: YoungTarget(s'.heap, w) ==> YoungTarget(s.heap, w);
      hide Inv, YoungTarget, Kept, Reachable;
      forall x | x in s'.tenured && x in s'.heap && s'.heap[x].body.Container?
        ensures Targets(s'.heap[x].body.scanned) <= s'.heap.Keys
        ensures ReferencesYoung(s'.heap, s'.heap[x].body) ==> x in s'.remembered
      {
        if x == r {
          ScannedAreStrong(s.heap[r].body);
        } else {
          assert ReferencesYoung(s'.heap, s'.heap[x].body) ==> ReferencesYoung(s.heap, s.heap[x].body);
        }
      }
    }
  }

  lemma InsertKeepsRemembered(s: State, r: Ref, body: Body)
    requires Inv(s) && RememberedComplete(s) && r !in s.heap
    ensures RememberedComplete(AfterInsert(s, r, body))
  {
    var s' := AfterInsert(s, r, body);
    forall x | x in s'.tenured && x in s'.heap && s'.heap[x].body.Container?
      ensures Targets(s'.heap[x].body.scanned) <= s'.heap.Keys
      ensures ReferencesYoung(s'.heap, s'.heap[x].body) ==> x in s'.remembered
    {
      assert x in s.heap && Targets(s.heap[x].body.scanned) <= s.heap.Keys;
      forall v | v in s.heap[x].body.scanned && YoungTarget(s'.heap, v)
        ensures YoungTarget(s.heap, v)
      {
        assert v.ref in Targets(s.heap[x].body.scanned);
      }
    }
  }

  /** Every step but a major collection keeps the promise that an old object which
      refers to a young one is remembered. */
  lemma StepKeepsRemembered(s: State, op: Op, s': State)
    requires Inv(s) && RememberedComplete(s) && Step(s, op, s') && !CollectsMajor(s, op)
    ensures RememberedComplete(s')
  {
    hide Inv, Minor, Major, InHand, RememberedComplete;
    match op
    case Store(owner, i, v) =>
      InHandAllocated(s, v);
      StoreKeepsRemembered(s, owner, i, v);
    case Promote(r) => PromoteKeepsRemembered(s, r);
    case MinorCollection => MinorKeepsRemembered(s, s');
    case New(body, r) =>
      var mid :| MaybeCollected(s, mid) && r !in mid.heap && s' == AfterInsert(mid, r, body);
      MaybeCollectedKeepsInv(s, mid);
      if CollectionDue(s) {
        var m :| Minor(s, m) && if MajorDue(m) then Major(m, mid) else mid == m;
        MinorCounts(s, m);
        MinorKeepsRemembered(s, mid);
      }
      InsertKeepsRemembered(mid, r, body);
    case _ => SameHeapSamePromise(s, s');
  }

  lemma SameHeapSamePromise(s: State, s': State)
    requires RememberedComplete(s) && s' == s.(pinned := s'.pinned, roots := s'.roots)
    ensures RememberedComplete(s')
  {
  }

  /** Over every run without a major collection the promise holds throughout. */
  lemma {:induction false} RunKeepsRemembered(states: seq<State>, ops: seq<Op>)
    requires IsRun(states, ops) && Inv(states[0]) && RememberedComplete(states[0])
    requires forall i :: 0 <= i < |ops| ==> !CollectsMajor(states[i], ops[i])
    ensures forall i :: 0 <= i < |states| ==> RememberedComplete(states[i])
    decreases |ops|
  {
    hide Inv, Step, RememberedComplete, CollectsMajor;
    if |ops| > 0 {
      StepKeepsInv(states[0], ops[0], states[1]);
      StepKeepsRemembered(states[0], ops[0], states[1]);
      RunKeepsRemembered(states[1..], ops[1..]);
      forall i | 0 <= i < |states|
        ensures RememberedComplete(states[i])
      {
        if i > 0 { assert states[i] == states[1..][i - 1]; }
      }
    }
  }

  /** A store remembers its container exactly when the container is old and the
      value a young object; nothing else becomes or stops being remembered. */
  lemma StoreRemembersIff(s: State, owner: Ref, i: nat, v: Value, s': State, r: Ref)
    requires Inv(s) && Step(s, Store(owner, i, v), s')
    ensures r in s'.remembered <==>
            r in s.remembered
            || (r == owner && owner in s.tenured && v.Ptr? && v.ref in s.young)
  {
    InHandAllocated(s, v);
    hide Reachable;
    if v.Ptr? { assert v.ref in s.heap; }
  }

  /** Under the promise, what a minor collection leaves remembered is exactly the old
      objects that refer to a young one. */
  lemma MinorRemembersExactly(s: State, s': State)
    requires Inv(s) && RememberedComplete(s) && Minor(s, s')
    ensures Elems(s'.remembered) == PointsToYoung(s'.heap)
  {
    MinorKeepsInv(s, s');
    MinorKeepsRemembered(s, s');
    hide AfterMinor, LeastLive, ReferencesYoung, PointsToYoung, RememberedComplete, Inv, Minor;
    var live := MinorIs(s, s');
    OnlyPointersRemembered(s, live);
    forall r | r in PointsToYoung(s'.heap) ensures r in s'.remembered {
      PointerIsRemembered(s', r);
    }
  }

  lemma OnlyPointersRemembered(s: State, live: set<Ref>)
    ensures var s' := AfterMinor(s, live);
            forall r :: r in s'.remembered ==> r in PointsToYoung(s'.heap)
  {
    hide Reversed, PromotedSet, PointsToYoung;
  }

  lemma PointerIsRemembered(s: State, r: Ref)
    requires Inv(s) && RememberedComplete(s) && r in PointsToYoung(s.heap)
    ensures r in s.remembered
  {
    hide NoDangling, YoungTarget;
    assert r in s.tenured;
  }

  // ---- reading what was written ----------------------------------------------

  /** The i-th field of an object, if it has one. */
  predicate FieldIs(h: Heap, r: Ref, i: nat, v: Value) {
    r in h && h[r].body.Container? && i < |h[r].body.scanned| && h[r].body.scanned[i] == v
  }

  /** After a store its field reads as the value stored, and every other field of
      every object as before. */
  lemma StoreThenRead(s: State, owner: Ref, slot: nat, v: Value, s': State, r: Ref, i: nat, x: Value)
    requires Step(s, Store(owner, slot, v), s')
    ensures FieldIs(s'.heap, r, i, x) <==> if r == owner && i == slot then x == v else FieldIs(s.heap, r, i, x)
  {
  }

  /** What is allocated is young and new, holds what it was given, and is in a root;
      its address belonged to nothing that was live. */
  lemma NewIsThere(s: State, body: Body, r: Ref, s': State, live: set<Ref>)
    requires Inv(s) && Step(s, New(body, r), s') && LeastLive(s.heap, RootRefs(s), {}, live)
    ensures r in s'.young && s'.heap[r] == Object(Young, 0, body) && Ptr(r) in s'.pinned && r !in live
  {
    StepKeepsLive(s, New(body, r), s', live);
    hide LeastLive, Inv, MaybeCollected, Survives;
    var mid :| MaybeCollected(s, mid) && r !in mid.heap && s' == AfterInsert(mid, r, body);
    assert s'.pinned[|mid.pinned|] == Ptr(r);
    assert r in live ==> KeptByStep(s, New(body, r), s', live, r);
  }

  // ---- ages ---------------------------------------------------------------

  /** Ages stay below the promotion age, which is a byte and not zero. */
  ghost predicate AgesOk(s: State) {
    0 < s.promotionAge < AGE_MODULUS && forall r :: r in s.heap && s.heap[r].gen.Young? ==> s.heap[r].age < s.promotionAge
  }

  /** An object that was young before the step and is itself after it: it was not
      freed and its address not given away. */
  predicate StaysYoungObject(s: State, op: Op, s': State, r: Ref) {
    r in s.heap && s.heap[r].gen.Young? && r in s'.heap && (op.New? ==> op.at != r)
  }

  lemma MinorIs(s: State, s': State) returns (live: set<Ref>)
    requires Minor(s, s')
    ensures s' == AfterMinor(s, live) && LeastLive(s.heap, RootRefs(s), Elems(s.remembered), live)
  {
    live :| LeastLive(s.heap, RootRefs(s), Elems(s.remembered), live) && s' == AfterMinor(s, live);
  }

  lemma MinorAges(s: State, s': State, r: Ref)
    requires Inv(s) && AgesOk(s) && Minor(s, s') && r in s.heap && s.heap[r].gen.Young? && r in s'.heap
    ensures s'.heap[r].gen.Old? <==> s.heap[r].age + 1 == s.promotionAge
    ensures s'.heap[r].gen.Young? ==> s'.heap[r].age == s.heap[r].age + 1
  {
    hide Inv, AgesOk, AfterMinor, Minor, LeastLive;
    var live := MinorIs(s, s');
    YoungIsListed(s, r);
    AgeOf(s, r);
    SweptAge(s, live, r);
  }

  lemma AgeOf(s: State, r: Ref)
    requires AgesOk(s) && r in s.heap && s.heap[r].gen.Young?
    ensures s.heap[r].age < s.promotionAge < AGE_MODULUS
  {
  }

  lemma SweptAge(s: State, live: set<Ref>, r: Ref)
    requires r in s.young && r in s.heap && s.heap[r].gen.Young? && r in AfterMinor(s, live).heap
    ensures var o, age := AfterMinor(s, live).heap[r], (s.heap[r].age + 1) % AGE_MODULUS;
            if age >= s.promotionAge then o.gen.Old? && o.age == 0 else o.gen.Young? && o.age == age
  {
    hide Kept, Reversed, PointsToYoung, PromotedSet;
    var broken := MinorBroken(s, live);
    assert r in Elems(s.young) && broken[r].gen == s.heap[r].gen && broken[r].age == s.heap[r].age;
  }

  lemma MinorKeepsAges(s: State, s': State)
    requires Inv(s) && AgesOk(s) && Minor(s, s')
    ensures AgesOk(s')
  {
    MinorCounts(s, s');
    forall r | r in s'.heap && s'.heap[r].gen.Young? ensures s'.heap[r].age < s'.promotionAge {
      YoungWasYoung(s, s', r);
      MinorAges(s, s', r);
      AgeOf(s, r);
    }
  }

  lemma YoungWasYoung(s: State, s': State, r: Ref)
    requires Inv(s) && Minor(s, s') && r in s'.heap && s'.heap[r].gen.Young?
    ensures r in s.heap && s.heap[r].gen.Young?
  {
    hide LeastLive, NoDangling;
    var live := MinorIs(s, s');
    hide Kept, Reversed, PointsToYoung, PromotedSet, RootRefs;
    assert r in s.young || r in s.tenured;
  }

  lemma MajorKeepsObjects(s: State, s': State)
    requires Inv(s) && Major(s, s')
    ensures forall r :: r in s'.heap ==> r in s.heap && s'.heap[r].gen == s.heap[r].gen && s'.heap[r].age == s.heap[r].age
  {
  }

  /** What a step makes of the age of a young object that stays: a minor collection
      adds one, and the object is old from the promotion age on, or when it is `given`
      an age of its own. */
  ghost predicate AgedBy(s: State, s': State, r: Ref, given: bool) {
    var minors := s'.minorCollections - s.minorCollections;
    && 0 <= minors <= 1 && r in s.heap && r in s'.heap
    && (s'.heap[r].gen.Old? <==> s.heap[r].age + minors == s.promotionAge || given)
    && (s'.heap[r].gen.Young? ==> s'.heap[r].age == s.heap[r].age + minors)
  }

  /** A step ages a young object by the minor collections it runs, at most one, and
      makes it old exactly when that brings it to the promotion age, or when the
      program promotes it. */
  lemma StepAges(s: State, op: Op, s': State, r: Ref)
    requires Inv(s) && AgesOk(s) && Step(s, op, s')
    ensures AgesOk(s')
    ensures StaysYoungObject(s, op, s', r) ==> AgedBy(s, s', r, op == Promote(r))
  {
    hide Inv, InHand, AgesOk, AgedBy, AfterPromote, AfterStore, Minor, Major, MaybeCollected, AfterInsert;
    match op
    case MinorCollection =>
      MinorCounts(s, s');
      MinorKeepsAges(s, s');
      if StaysYoungObject(s, op, s', r) {
        MinorAges(s, s', r);
        AgedIs(s, s', r, false);
      }
    case MajorCollection =>
      MajorCounts(s, s');
      MajorKeepsObjects(s, s');
      SameAges(s, s', r);
    case New(body, at) =>
      var mid :| MaybeCollected(s, mid) && at !in mid.heap && s' == AfterInsert(mid, at, body);
      MaybeCollectedAges(s, mid, r);
      InsertAges(s, mid, at, body, r);
      InsertAdds(mid, at, body, r);
    case Promote(x) =>
      YoungIsListed(s, x);
      PromoteAges(s, x, r);
    case Store(owner, i, v) => StoreAges(s, owner, i, v, r);
    case _ => SameAges(s, s', r);
  }

  lemma AgedIs(s: State, s': State, r: Ref, given: bool)
    requires AgesOk(s) && r in s.heap && s.heap[r].gen.Young? && r in s'.heap
    requires var minors := s'.minorCollections - s.minorCollections;
             && 0 <= minors <= 1
             && (s'.heap[r].gen.Old? <==> s.heap[r].age + minors == s.promotionAge || given)
             && (s'.heap[r].gen.Young? ==> s'.heap[r].age == s.heap[r].age + minors)
    ensures AgedBy(s, s', r, given)
  {
  }

  lemma SameAges(s: State, s': State, r: Ref)
    requires AgesOk(s) && s'.promotionAge == s.promotionAge && s'.minorCollections == s.minorCollections
    requires forall x :: x in s'.heap ==> x in s.heap && s'.heap[x].gen == s.heap[x].gen && s'.heap[x].age == s.heap[x].age
    ensures AgesOk(s')
    ensures r in s.heap && s.heap[r].gen.Young? && r in s'.heap ==> AgedBy(s, s', r, false)
  {
  }

  lemma StoreAges(s: State, owner: Ref, i: nat, v: Value, r: Ref)
    requires owner in s.heap && s.heap[owner].body.Container? && i < |s.heap[owner].body.scanned| && AgesOk(s)
    ensures AgesOk(AfterStore(s, owner, i, v))
    ensures r in s.heap && s.heap[r].gen.Young? ==> AgedBy(s, AfterStore(s, owner, i, v), r, false)
  {
    hide AgesOk, AgedBy, YoungTarget;
    SameAges(s, AfterStore(s, owner, i, v), r);
  }

  lemma PromoteAges(s: State, x: Ref, r: Ref)
    requires x in s.heap && AgesOk(s) && (x in s.young <==> s.heap[x].gen.Young?)
    ensures AgesOk(AfterPromote(s, x))
    ensures r in s.heap && s.heap[r].gen.Young? ==> AgedBy(s, AfterPromote(s, x), r, x == r)
  {
    hide Kept, ReferencesYoung;
  }

  lemma InsertAdds(mid: State, at: Ref, body: Body, r: Ref)
    ensures r in AfterInsert(mid, at, body).heap <==> r == at || r in mid.heap
  {
  }

  lemma InsertAges(s: State, mid: State, at: Ref, body: Body, r: Ref)
    requires AgesOk(mid)
    ensures AgesOk(AfterInsert(mid, at, body))
    ensures r != at && r in mid.heap && AgedBy(s, mid, r, false) ==> AgedBy(s, AfterInsert(mid, at, body), r, false)
  {
  }

  lemma YoungIsListed(s: State, x: Ref)
    requires Inv(s)
    ensures x in s.heap ==> (x in s.young <==> s.heap[x].gen.Young?)
  {
  }

  lemma MaybeCollectedAges(s: State, mid: State, r: Ref)
    requires Inv(s) && AgesOk(s) && MaybeCollected(s, mid)
    ensures AgesOk(mid)
    ensures r in s.heap && s.heap[r].gen.Young? && r in mid.heap ==> AgedBy(s, mid, r, false)
  {
    hide Inv, Minor, Major;
    if CollectionDue(s) {
      var m :| Minor(s, m) && if MajorDue(m) then Major(m, mid) else mid == m;
      MinorKeepsInv(s, m);
      MinorCounts(s, m);
      MinorKeepsAges(s, m);
      if MajorDue(m) {
        MajorCounts(m, mid);
        MajorKeepsObjects(m, mid);
      }
      if r in s.heap && s.heap[r].gen.Young? && r in mid.heap { MinorAges(s, m, r); }
    }
  }

  /** Over every run an object that stays young is as much older as there were minor
      collections, and that is less than the promotion age. */
  lemma {:induction false} AgeCountsCollections(states: seq<State>, ops: seq<Op>, r: Ref)
    requires IsRun(states, ops) && Inv(states[0]) && AgesOk(states[0])
    requires forall i :: 0 <= i < |states| ==> r in states[i].heap && states[i].heap[r].gen.Young?
    requires forall i :: 0 <= i < |ops| && ops[i].New? ==> ops[i].at != r
    ensures states[|ops|].heap[r].age - states[0].heap[r].age
            == states[|ops|].minorCollections - states[0].minorCollections
    ensures states[|ops|].heap[r].age < states[|ops|].promotionAge
    decreases |ops|
  {
    hide Inv, Step;
    if |ops| > 0 {
      StepKeepsInv(states[0], ops[0], states[1]);
      StepAges(states[0], ops[0], states[1], r);
      AgeCountsCollections(states[1..], ops[1..], r);
      assert states[1..][|ops| - 1] == states[|ops|];
    }
  }

  // ---- when garbage goes -----------------------------------------------------

  /** Collections, when they are not switched off, come before more than `threshold`
      objects were allocated. */
  predicate AllocationBounded(s: State) {
    s.noCollect == 0 ==> s.allocCount <= s.threshold
  }

  lemma StepKeepsAllocationBounded(s: State, op: Op, s': State)
    requires AllocationBounded(s) && Step(s, op, s')
    ensures AllocationBounded(s') && s'.noCollect == s.noCollect
  {
    hide Minor, Major, InHand;
    match op
    case MinorCollection => MinorCounts(s, s');
    case MajorCollection => MajorCounts(s, s');
    case New(body, at) =>
      var mid :| MaybeCollected(s, mid) && at !in mid.heap && s' == AfterInsert(mid, at, body);
      if CollectionDue(s) {
        var m :| Minor(s, m) && if MajorDue(m) then Major(m, mid) else mid == m;
        MinorCounts(s, m);
        if MajorDue(m) { MajorCounts(m, mid); }
      }
    case _ =>
  }

  /** Over every run no more objects are allocated between two collections than the
      threshold that the last collection set. */
  lemma {:induction false} RunKeepsAllocationBounded(states: seq<State>, ops: seq<Op>)
    requires IsRun(states, ops) && AllocationBounded(states[0])
    ensures forall i :: 0 <= i < |states| ==> AllocationBounded(states[i])
    decreases |ops|
  {
    hide Step, AllocationBounded;
    if |ops| > 0 {
      StepKeepsAllocationBounded(states[0], ops[0], states[1]);
      RunKeepsAllocationBounded(states[1..], ops[1..]);
      forall i | 0 <= i < |states|
        ensures AllocationBounded(states[i])
      {
        if i > 0 { assert states[i] == states[1..][i - 1]; }
      }
    }
  }

  /** A minor collection changes neither what is live nor, of the live, the bodies
      that make it so. */
  lemma LiveSameAfterMinor(s: State, mid: State, live: set<Ref>, live2: set<Ref>)
    requires Inv(s) && Minor(s, mid)
    requires LeastLive(s.heap, RootRefs(s), {}, live) && LeastLive(mid.heap, RootRefs(mid), {}, live2)
    ensures live2 == live
  {
    LiveAfterMinor(s, mid, live, live2);
    MinorKeepsLive(s, mid, live);
    CollectionsKeepRoots(s, mid);
    hide Minor, Inv, Survives;
    StillClosed(s.heap, mid.heap, RootRefs(s), live);
  }

  lemma StillClosed(h: Heap, h': Heap, seeds: set<Ref>, live: set<Ref>)
    requires LiveClosed(h, seeds, {}, live) && forall r :: r in live ==> Survives(h, h', live, r)
    ensures LiveClosed(h', seeds, {}, live)
  {
    assert live + {} == live;
    forall r | r in live && r in h' ensures Strong(h'[r].body) <= live {
      assert Survives(h, h', live, r);
    }
    forall e | e in live && IsEphemeron(h', e) && KeyLive(h'[e].body, live) ensures Target(h'[e].body.value) <= live {
      assert Survives(h, h', live, e);
    }
  }

  /** An allocation whose turn it is to run a major collection leaves exactly what was
      live, and the new object. */
  lemma AllocationFreesGarbage(s: State, body: Body, r: Ref, s': State, live: set<Ref>)
    requires Inv(s) && Step(s, New(body, r), s') && CollectsMajor(s, New(body, r))
    requires LeastLive(s.heap, RootRefs(s), {}, live)
    ensures s'.heap.Keys == live + {r}
  {
    hide Inv, Minor, Major, LeastLive;
    var mid :| MaybeCollected(s, mid) && r !in mid.heap && s' == AfterInsert(mid, r, body);
    var m :| Minor(s, m) && if MajorDue(m) then Major(m, mid) else mid == m;
    MinorCounts(s, m);
    MinorKeepsInv(s, m);
    var live2 := SomeLive(m, mid);
    LiveSameAfterMinor(s, m, live, live2);
    MajorKeepsExactlyLive(m, mid, live2);
  }

  lemma SomeLive(s: State, s': State) returns (live: set<Ref>)
    requires Major(s, s')
    ensures LeastLive(s.heap, RootRefs(s), {}, live)
  {
    live :| LeastLive(s.heap, RootRefs(s), {}, live) && s' == AfterMajor(s, live);
  }
}
