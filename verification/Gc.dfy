/** The collector itself: mark bits, object lists, remembered set and counters
    updated in place by loops, each operation proved against GcSpec. */
module Gc {
  import opened GcHeap
  import opened GcMark
  import opened GcSpec
  import opened GcRuns

  class Collector {
    var heap: Heap
    var young: seq<Ref>
    var tenured: seq<Ref>
    var marked: set<Ref>
    var remembered: seq<Ref>
    var pending: seq<Ref>
    var pinned: seq<Value>
    var roots: seq<Value>
    var youngCount: nat
    var oldCount: nat
    var objectCount: nat
    var allocCount: nat
    var threshold: nat
    var minorCollections: nat
    var majorCollections: nat
    var promotionAge: nat
    var majorInterval: nat
    var noCollect: nat

    ghost function St(): State
      reads this
    {
      State(heap, young, tenured, marked, remembered, pending, pinned, roots, youngCount, oldCount, objectCount,
            allocCount, threshold, minorCollections, majorCollections, promotionAge, majorInterval, noCollect)
    }

    ghost function Seeds(): set<Ref>
      reads `pinned, `roots
    {
      Targets(pinned) + Targets(roots)
    }

    constructor ()
      ensures Inv(St()) && heap == map[] && pinned == [] && roots == []
      ensures promotionAge == 2 && majorInterval == 8 && threshold == DEFAULT_THRESHOLD && noCollect == 0
    {
      heap, young, tenured, marked, remembered, pending := map[], [], [], {}, [], [];
      pinned, roots := [], [];
      youngCount, oldCount, objectCount, allocCount := 0, 0, 0, 0;
      threshold, minorCollections, majorCollections := DEFAULT_THRESHOLD, 0, 0;
      promotionAge, majorInterval, noCollect := 2, 8, 0;
      new;
      assert Closed(heap, {});
      NoDanglingIffClosed(heap, RootRefs(St()) + Elems(remembered));
    }

    // ---- marking --------------------------------------------------------

    method MarkValue(v: Value, ghost S: set<Ref>)
      requires Closed(heap, S) && Target(v) <= S && marked <= heap.Keys
      modifies `marked, `pending
      ensures MarkStep(heap, Target(v), old(marked), old(pending), marked, pending)
      ensures marked <= heap.Keys
      decreases heap.Keys - marked, 2
    {
      if v.Ptr? {
        MarkObject(v.ref, S);
      } else {
        MarkNothing(heap, marked, pending);
      }
    }

    method MarkObject(r: Ref, ghost S: set<Ref>)
      requires Closed(heap, S) && r in S && marked <= heap.Keys
      modifies `marked, `pending
      ensures MarkStep(heap, {r}, old(marked), old(pending), marked, pending)
      ensures marked <= heap.Keys
      decreases heap.Keys - marked, 1
    {
      if r in marked {
        return;
      }
      marked := marked + {r};
      assert Edges(heap[r].body) <= S;
      MarkContents(r, S);
      MarkObjectStep(heap, r, old(marked), old(pending), marked, pending);
    }

    /** Traces what r refers to without marking r itself. */
    method MarkContents(r: Ref, ghost S: set<Ref>)
      requires Closed(heap, S) && r in heap && Edges(heap[r].body) <= S && marked <= heap.Keys
      modifies `marked, `pending
      ensures MarkStep(heap, Strong(heap[r].body), old(marked),
                       if IsEphemeron(heap, r) then old(pending) + [r] else old(pending), marked, pending)
      ensures marked <= heap.Keys
      decreases heap.Keys - marked, 4
    {
      match heap[r].body
      case Container(_, _) =>
        MarkAll(Traced(heap[r].body), S);
      case Ephemeron(_, _, _) =>
        pending := pending + [r];
        MarkNothing(heap, marked, pending);
    }

    method MarkAll(vs: seq<Value>, ghost S: set<Ref>)
      requires Closed(heap, S) && Targets(vs) <= S && marked <= heap.Keys
      modifies `marked, `pending
      ensures MarkStep(heap, Targets(vs), old(marked), old(pending), marked, pending)
      ensures marked <= heap.Keys
      decreases heap.Keys - marked, 3
    {
      hide MarkStep, Closed;
      MarkNothing(heap, marked, pending);
      assert Targets(vs[..0]) == {};
      for i := 0 to |vs|
        invariant marked <= heap.Keys
        invariant MarkStep(heap, Targets(vs[..i]), old(marked), old(pending), marked, pending) && old(marked) <= marked
      {
        ghost var m, p := marked, pending;
        TargetsNext(vs, i);
        MarkValue(vs[i], S);
        MarkStepTrans(heap, Targets(vs[..i]), Target(vs[i]), old(marked), old(pending), m, p, marked, pending);
        StepGrows(heap, Targets(vs[..i + 1]), old(marked), old(pending), marked, pending);
      }
      assert vs[..|vs|] == vs;
    }

    method MarkRoots(ghost S: set<Ref>)
      requires Closed(heap, S) && Seeds() <= S && marked == {}
      modifies `marked, `pending
      ensures MarkStep(heap, Seeds(), {}, [], marked, pending) && marked <= heap.Keys
    {
      pending := [];
      MarkAll(pinned, S);
      ghost var m, p := marked, pending;
      MarkAll(roots, S);
      MarkStepTrans(heap, Targets(pinned), Targets(roots), {}, [], m, p, marked, pending);
    }

    /** Traces the contents of the remembered objects, which are not themselves
        marked. */
    method MarkRemembered(ghost S: set<Ref>)
      requires Closed(heap, S) && Elems(remembered) <= S && marked <= heap.Keys
      requires MarkStep(heap, Seeds(), {}, [], marked, pending)
      modifies `marked, `pending
      ensures WeakPhase(heap, Seeds(), Elems(remembered), marked, pending) && marked <= heap.Keys
    {
      hide MarkStep, WeakPhase, PendingFrom, Closed, Children;
      ghost var seeds := Seeds();
      ghost var traced: seq<Ref> := pending;
      NothingRemembered(heap, pending);
      assert Elems(remembered[..0]) == {} && seeds + {} == seeds;
      for i := 0 to |remembered|
        invariant marked <= heap.Keys
        invariant MarkStep(heap, seeds + Children(heap, Elems(remembered[..i])), {}, [], marked, traced)
        invariant PendingFrom(heap, traced, Elems(remembered[..i]), pending)
      {
        var r := remembered[i];
        ClosedAt(heap, S, r);
        ghost var m, p := marked, pending;
        MarkContents(r, S);
        traced := RememberedStep(heap, seeds, Elems(remembered[..i]), r, m, traced, p, marked, pending);
        ElemsNext(remembered, i);
      }
      assert remembered[..|remembered|] == remembered;
      TracingReachesWeakPhase(heap, seeds, Elems(remembered), marked, traced, pending);
    }

    /** The ephemeron fixpoint: as long as a pending key is live, mark its value
        and drop it; then break what is left. */
    method ProcessWeakRefs(ghost extra: set<Ref>, ghost S: set<Ref>)
      requires Closed(heap, S) && Seeds() + extra <= S
      requires WeakPhase(heap, Seeds(), extra, marked, pending) && marked <= heap.Keys
      modifies `marked, `pending, `heap
      ensures LeastLive(old(heap), Seeds(), extra, marked) && marked <= heap.Keys == old(heap).Keys
      ensures heap == BreakAll(old(heap), DeadEphemerons(old(heap), marked + extra, marked))
      ensures pending == []
    {
      hide WeakPhase;
      ghost var seeds := Seeds();
      var progress := true;
      while progress
        invariant heap == old(heap) && marked <= heap.Keys
        invariant WeakPhase(heap, seeds, extra, marked, pending)
        invariant !progress ==> forall e :: e in pending ==> DeadKey(heap, e, marked)
        decreases heap.Keys - marked, |pending|, progress
      {
        progress := false;
        var i := 0;
        ghost var m0, p0 := marked, |pending|;
        while i < |pending|
          invariant 0 <= i <= |pending|
          invariant heap == old(heap) && marked <= heap.Keys
          invariant WeakPhase(heap, seeds, extra, marked, pending)
          invariant !progress ==> marked == m0 && |pending| == p0
          invariant !progress ==> forall j :: 0 <= j < i ==> DeadKey(heap, pending[j], marked)
          invariant progress ==> m0 < marked || (m0 == marked && |pending| < p0)
          decreases heap.Keys - marked, |pending|, |pending| - i
        {
          var e := pending[i];
          PendingIsEphemeron(heap, seeds, extra, marked, pending, i);
          if WeakReachable(heap[e].body.key) {
            SettleEphemeron(i, extra, S);
            assert Seeds() == seeds;
            progress := true;
          } else {
            i := i + 1;
          }
        }
      }
      WeakPhaseDone(heap, seeds, extra, marked, pending);
      assert Elems(pending) == DeadEphemerons(heap, marked + extra, marked);
      BreakPending();
    }

    /** A pending ephemeron with a live key: its value gets marked and the last
        pending one takes its place. */
    method SettleEphemeron(i: nat, ghost extra: set<Ref>, ghost S: set<Ref>)
      requires Closed(heap, S) && Seeds() + extra <= S
      requires WeakPhase(heap, Seeds(), extra, marked, pending)
      requires i < |pending| && IsEphemeron(heap, pending[i]) && KeyLive(heap[pending[i]].body, marked)
      modifies `marked, `pending
      ensures WeakPhase(heap, Seeds(), extra, marked, pending) && marked <= heap.Keys
      ensures |pending| + 1 >= old(|pending|)
      ensures old(marked) < marked || (old(marked) == marked && |pending| < old(|pending|))
    {
      hide WeakPhase, MarkStep, Closed;
      var e := pending[i];
      ghost var m, p := marked, pending;
      PendingIsCarrier(heap, Seeds(), extra, marked, pending, i);
      WeakPhaseInClosed(heap, Seeds(), extra, marked, pending, S);
      ClosedAt(heap, S, e);
      MarkValue(heap[e].body.key, S);
      MarkKnown(heap, Target(heap[e].body.key), m, p, marked, pending);
      MarkValue(heap[e].body.value, S);
      ghost var p1 := pending;
      assert p1[i] == e;
      pending := pending[i := pending[|pending| - 1]][..|pending| - 1];
      SwapRemoved(p1, i, pending);
      SettleOne(heap, Seeds(), extra, m, p, e, marked, p1, pending);
      StepCounts(heap, Target(heap[e].body.value), m, p, marked, p1);
    }

    method BreakPending()
      requires Elems(pending) <= heap.Keys
      modifies `pending, `heap
      ensures heap == BreakAll(old(heap), Elems(old(pending))) && pending == []
    {
      ghost var h, p := heap, pending;
      for j := 0 to |pending|
        invariant pending == p
        invariant heap == BreakAll(h, Elems(pending[..j]))
      {
        var e := pending[j];
        assert e in Elems(pending);
        heap := heap[e := Break(heap[e])];
        assert pending[..j + 1] == pending[..j] + [e];
      }
      assert pending[..|pending|] == pending;
      pending := [];
    }

    predicate WeakReachable(v: Value)
      reads `marked
      ensures WeakReachable(v) <==> Target(v) <= marked
    {
      v.Imm? || v.ref in marked
    }

    // ---- sweeping -------------------------------------------------------

    /** Unlinks and frees the unmarked objects of one list, unmarks the rest. */
    method SweepListMajor(list: seq<Ref>, count: nat) returns (kept: seq<Ref>, keptCount: nat)
      requires Distinct(list) && Elems(list) <= heap.Keys && count == |list| && objectCount >= |list|
      modifies `heap, `marked, `objectCount
      ensures kept == Kept(list, old(marked)) && keptCount == |kept|
      ensures heap == Freed(old(heap), Elems(list), old(marked))
      ensures marked == old(marked) - Elems(list)
      ensures objectCount == old(objectCount) - (|list| - |kept|)
    {
      hide Sweeping, Freed, Kept;
      SweepStart(heap, list, marked);
      kept, keptCount := list, count;
      var link := 0;
      ghost var done := 0;
      ghost var h, m := heap, marked;
      while link < |kept|
        invariant Sweeping(h, list, m, done, heap, marked, kept, link)
        invariant keptCount == |kept| <= |list| && objectCount == old(objectCount) - (|list| - |kept|)
        decreases |list| - done
      {
        SweepVisit(h, list, m, done, heap, marked, kept, link);
        var obj := kept[link];
        if obj !in marked {
          kept := kept[..link] + kept[link + 1..];
          heap := heap - {obj};
          keptCount := keptCount - 1;
          objectCount := objectCount - 1;
        } else {
          marked := marked - {obj};
          link := link + 1;
        }
        done := done + 1;
      }
      SweepEnd(h, list, m, done, heap, marked, kept, link);
    }

    method MarkForMajor(ghost S: set<Ref>)
      requires Closed(heap, S) && Seeds() <= S && marked == {}
      modifies `marked, `pending, `heap
      ensures LeastLive(old(heap), Seeds(), {}, marked) && marked <= heap.Keys == old(heap).Keys
      ensures heap == BreakAll(old(heap), DeadEphemerons(old(heap), marked + {}, marked)) && pending == []
    {
      hide WeakPhase, LeastLive, MarkStep, BreakAll;
      MarkRoots(S);
      MajorTracing(heap, Seeds(), marked, pending);
      ProcessWeakRefs({}, S);
    }

    method SweepBothMajor()
      requires Partition(heap, young, tenured) && marked <= heap.Keys
      requires youngCount == |young| && oldCount == |tenured| && objectCount == |young| + |tenured|
      modifies `marked, `heap, `young, `youngCount, `tenured, `oldCount, `objectCount
      ensures young == Kept(old(young), old(marked)) && tenured == Kept(old(tenured), old(marked))
      ensures heap == map r | r in old(heap) && r in old(marked) :: old(heap)[r]
      ensures youngCount == |young| && oldCount == |tenured| && objectCount == |young| + |tenured| && marked == {}
    {
      hide Kept, Freed;
      MajorFreed(heap, young, tenured, marked);
      young, youngCount := SweepListMajor(young, youngCount);
      tenured, oldCount := SweepListMajor(tenured, oldCount);
    }

    method TraceAndSweepMajor(ghost S: set<Ref>) returns (ghost live: set<Ref>)
      requires Closed(heap, S) && Seeds() <= S && marked == {} && Partition(heap, young, tenured)
      requires youngCount == |young| && oldCount == |tenured| && objectCount == |young| + |tenured|
      modifies `marked, `pending, `heap, `young, `youngCount, `tenured, `oldCount, `objectCount
      ensures LeastLive(old(heap), Seeds(), {}, live)
      ensures heap == MajorHeap(old(heap), live)
      ensures young == Kept(old(young), live) && tenured == Kept(old(tenured), live)
      ensures youngCount == |young| && oldCount == |tenured| && objectCount == |young| + |tenured|
      ensures marked == {} && pending == []
    {
      hide LeastLive, Kept, BreakAll, DeadEphemerons, Partition, Closed;
      ghost var h := heap;
      MarkForMajor(S);
      live := marked;
      assert live + {} == live;
      PartitionByGen(h, heap, young, tenured, live, live);
      SweepBothMajor();
    }

    method CollectMajor()
      requires Inv(St())
      modifies `marked, `pending, `heap, `young, `youngCount, `tenured, `oldCount, `objectCount, `remembered,
               `allocCount, `majorCollections, `threshold
      ensures Major(old(St()), St())
    {
      hide LeastLive, AfterMajor, Kept, MajorHeap, Inv, Major, Partition, Closed, Targets, Elems;
      ghost var s := St();
      ghost var S := SafeSet(s);
      ghost var live := TraceAndSweepMajor(S);
      remembered := [];
      allocCount := 0;
      majorCollections := majorCollections + 1;
      threshold := objectCount * 2 + DEFAULT_THRESHOLD;
      MajorDone(s, live, St());
    }

    // ---- minor collections ----------------------------------------------

    method RefersToYoung(vs: seq<Value>) returns (b: bool)
      requires Targets(vs) <= heap.Keys
      ensures b <==> exists v :: v in vs && YoungTarget(heap, v)
    {
      for i := 0 to |vs|
        invariant forall j :: 0 <= j < i ==> !YoungTarget(heap, vs[j])
      {
        assert vs[i] in vs;
        if vs[i].Ptr? && heap[vs[i].ref].gen.Young? {
          assert YoungTarget(heap, vs[i]);
          return true;
        }
      }
      return false;
    }

    /** references_young: an ephemeron never counts. */
    method ReferencesYoungNow(r: Ref) returns (b: bool)
      requires r in heap && Strong(heap[r].body) <= heap.Keys
      ensures b <==> ReferencesYoung(heap, heap[r].body)
    {
      match heap[r].body
      case Container(scanned, unscanned) =>
        assert forall v :: v in scanned ==> v in scanned + unscanned;
        b := RefersToYoung(scanned);
      case Ephemeron(_, _, _) =>
        b := false;
    }

    /** Only old objects are remembered. */
    method RememberedSetAdd(r: Ref)
      requires r in heap
      modifies `remembered
      ensures remembered == if heap[r].gen.Old? then old(remembered) + [r] else old(remembered)
    {
      if heap[r].gen.Old? {
        remembered := remembered + [r];
      }
    }

    method SweepYoungMinor()
      requires Distinct(young) && Distinct(tenured)
      requires forall r :: r in young ==> r in heap && heap[r].gen.Young?
      requires youngCount == |young| && oldCount == |tenured| && objectCount == |young| + |tenured|
      requires marked <= heap.Keys && forall r :: r in marked ==> Strong(heap[r].body) <= marked
      modifies `heap, `young, `tenured, `marked, `remembered, `youngCount, `oldCount, `objectCount
      ensures var promoted := PromotedSet(old(heap), old(marked), promotionAge);
              && young == Kept(old(young), old(marked) - promoted)
              && tenured == Reversed(Kept(old(young), promoted)) + old(tenured)
              && heap == Swept(old(heap), Elems(old(young)), old(marked), promotionAge)
              && marked == old(marked) - Elems(old(young))
              && Kept(remembered, PointsToYoung(heap))
                 == Kept(old(remembered) + Kept(old(young), promoted), PointsToYoung(heap))
      ensures forall r :: r in remembered ==> r in old(remembered) || r in old(marked)
      ensures youngCount == |young| && oldCount == |tenured| && objectCount == |young| + |tenured|
    {
      hide MinorSweeping, Kept, Swept, Reversed, PointsToYoung, PromotedSet, Distinct;
      ghost var h0, list, live, t0, rem0 := heap, young, marked, tenured, remembered;
      ghost var done, noted: set<Ref> := 0, {};
      var link := 0;
      MinorSweepStart(h0, list, live, promotionAge, t0, rem0);
      while link < |young|
        invariant MinorSweeping(h0, list, live, promotionAge, t0, rem0, done, heap, marked, young, link, tenured, remembered, noted)
        invariant done <= |list| && forall r :: r in remembered ==> r in rem0 || r in live
        invariant youngCount == |young| && oldCount == |tenured| && objectCount == |young| + |tenured|
        decreases |list| - done
      {
        MinorSweepNext(h0, list, live, promotionAge, t0, rem0, done, heap, marked, young, link, tenured, remembered, noted);
        MinorSweepStay(h0, list, live, promotionAge, t0, rem0, done, heap, marked, young, link, tenured, remembered, noted);
        MinorSweepSees(h0, list, live, promotionAge, t0, rem0, done, heap, marked, young, link, tenured, remembered, noted);
        var obj := young[link];
        if obj !in marked {
          young := young[..link] + young[link + 1..];
          heap := heap - {obj};
          youngCount := youngCount - 1;
          objectCount := objectCount - 1;
        } else {
          ghost var m := marked;
          marked := marked - {obj};
          var age := (heap[obj].age + 1) % AGE_MODULUS;
          if age >= promotionAge {
            MinorSweepPromote(h0, list, live, promotionAge, t0, rem0, done, heap, m, young, link, tenured, remembered, noted);
            young := young[..link] + young[link + 1..];
            youngCount := youngCount - 1;
            heap := heap[obj := heap[obj].(gen := Old, age := 0)];
            tenured := [obj] + tenured;
            oldCount := oldCount + 1;
            var b := ReferencesYoungNow(obj);
            if b {
              RememberedSetAdd(obj);
              noted := noted + {obj};
            }
          } else {
            heap := heap[obj := heap[obj].(age := age)];
            link := link + 1;
          }
        }
        done := done + 1;
      }
      MinorSweepEnd(h0, list, live, promotionAge, t0, rem0, done, heap, marked, young, link, tenured, remembered, noted);
    }

    /** Keeps the old objects that still refer to a young one, in place. */
    method PruneRememberedSet()
      requires forall r :: r in remembered ==> r in heap && Strong(heap[r].body) <= heap.Keys
      modifies `remembered
      ensures remembered == Kept(old(remembered), PointsToYoung(heap))
    {
      hide Kept, PointsToYoung;
      var write := 0;
      ghost var rem, keep := remembered, PointsToYoung(heap);
      KeptNone(rem, keep);
      for i := 0 to |remembered|
        invariant |remembered| == |rem| && write <= i
        invariant remembered[..write] == Kept(rem[..i], keep)
        invariant remembered[i..] == rem[i..]
      {
        var obj := remembered[i];
        assert obj == rem[i] && obj in rem;
        KeptNext(rem, i, keep);
        InPointsToYoung(heap, obj);
        var b := ReferencesYoungNow(obj);
        if heap[obj].gen.Old? && b {
          remembered := remembered[write := obj];
          write := write + 1;
          assert remembered[..write] == remembered[..write - 1] + [obj];
        }
      }
      assert rem[..|rem|] == rem;
      remembered := remembered[..write];
    }

    method ClearMarks(list: seq<Ref>)
      modifies `marked
      ensures marked == old(marked) - Elems(list)
    {
      for i := 0 to |list|
        invariant marked == old(marked) - Elems(list[..i])
      {
        marked := marked - {list[i]};
        assert list[..i + 1] == list[..i] + [list[i]];
      }
      assert list[..|list|] == list;
    }

    method MarkForMinor(ghost S: set<Ref>)
      requires Closed(heap, S) && Seeds() + Elems(remembered) <= S && marked == {}
      modifies `marked, `pending, `heap
      ensures LeastLive(old(heap), Seeds(), Elems(remembered), marked) && marked <= heap.Keys == old(heap).Keys
      ensures heap == BreakAll(old(heap), DeadEphemerons(old(heap), marked + Elems(remembered), marked)) && pending == []
    {
      hide WeakPhase, LeastLive, MarkStep, BreakAll, DeadEphemerons, Closed;
      ClearMarks(tenured);
      MarkRoots(S);
      MarkRemembered(S);
      ProcessWeakRefs(Elems(remembered), S);
    }

    method TraceAndSweepMinor(ghost S: set<Ref>) returns (ghost live: set<Ref>)
      requires Closed(heap, S) && Seeds() + Elems(remembered) <= S && Partition(heap, young, tenured)
      requires forall r :: r in remembered ==> r in tenured
      requires youngCount == |young| && oldCount == |tenured| && objectCount == |young| + |tenured| && marked == {}
      modifies `marked, `pending, `heap, `young, `youngCount, `tenured, `oldCount, `objectCount, `remembered
      ensures LeastLive(old(heap), Seeds(), Elems(old(remembered)), live)
      ensures var broken := BreakAll(old(heap), DeadEphemerons(old(heap), live + Elems(old(remembered)), live));
              var promoted := PromotedSet(broken, live, promotionAge);
              && heap == Swept(broken, Elems(old(young)), live, promotionAge)
              && young == Kept(old(young), live - promoted)
              && tenured == Reversed(Kept(old(young), promoted)) + old(tenured)
              && remembered == Kept(old(remembered) + Kept(old(young), promoted), PointsToYoung(heap))
      ensures youngCount == |young| && oldCount == |tenured| && objectCount == |young| + |tenured|
      ensures marked == {} && pending == []
    {
      hide LeastLive, Kept, BreakAll, DeadEphemerons, Closed, PromotedSet, PointsToYoung, Reversed, Swept;
      ghost var h, list, rem := heap, young, Elems(remembered);
      MarkForMinor(S);
      live := marked;
      ghost var broken := heap;
      PartitionByGen(h, broken, young, tenured, live + rem, live);
      BrokenIsClosed(h, S, Seeds(), rem, live);
      StrongWithin(broken, live + rem, live);
      SweepYoungMinor();
      SweptSees(broken, list, tenured, live, rem, promotionAge);
      PruneRememberedSet();
      ClearMarks(tenured);
    }

    method CollectMinor()
      requires Inv(St())
      modifies `marked, `pending, `heap, `young, `youngCount, `tenured, `oldCount, `objectCount, `remembered,
               `allocCount, `minorCollections, `threshold
      ensures Minor(old(St()), St())
    {
      hide LeastLive, Kept, Swept, Inv, Minor, Partition, Closed, Targets, Elems;
      ghost var s := St();
      ghost var S := SafeSet(s);
      ghost var live := TraceAndSweepMinor(S);
      ghost var swept := St();
      StartCycle();
      MinorDone(s, live, swept, St());
    }

    method StartCycle()
      modifies `allocCount, `minorCollections, `threshold
      ensures St() == old(St()).(allocCount := 0, minorCollections := old(minorCollections) + 1,
                                 threshold := objectCount * 2 + DEFAULT_THRESHOLD)
    {
      allocCount := 0;
      minorCollections := minorCollections + 1;
      threshold := objectCount * 2 + DEFAULT_THRESHOLD;
    }

    // ---- what the program does ------------------------------------------

    method PushRoot(v: Value)
      requires InHand(St(), v) && |roots| < ROOT_MAX
      modifies `roots
      ensures Step(old(St()), Push(v), St())
    {
      roots := roots + [v];
    }

    method PopRoots(n: nat)
      requires n <= |roots|
      modifies `roots
      ensures Step(old(St()), PopN(n), St())
    {
      roots := roots[..|roots| - n];
    }

    /** Records the container when it is old and the value a young object. */
    method WriteBarrier(owner: Ref, v: Value)
      requires owner in heap && Target(v) <= heap.Keys
      modifies `remembered
      ensures remembered == if heap[owner].gen.Old? && YoungTarget(heap, v) then old(remembered) + [owner]
                            else old(remembered)
    {
      if heap[owner].gen.Young? || v.Imm? {
        return;
      }
      if heap[v.ref].gen.Old? {
        return;
      }
      RememberedSetAdd(owner);
    }

    method StoreField(owner: Ref, slot: nat, v: Value)
      requires Inv(St()) && InHand(St(), Ptr(owner)) && InHand(St(), v)
      requires owner in heap && heap[owner].body.Container? && slot < |heap[owner].body.scanned|
      modifies `heap, `remembered
      ensures Step(old(St()), Store(owner, slot, v), St())
    {
      InHandIsAllocated(St(), v);
      var o := heap[owner];
      heap := heap[owner := o.(body := o.body.(scanned := o.body.scanned[slot := v]))];
      WriteBarrier(owner, v);
    }

    method PromoteToOld(obj: Ref)
      requires Inv(St()) && InHand(St(), Ptr(obj)) && obj in heap
      modifies `heap, `young, `youngCount, `tenured, `oldCount, `remembered
      ensures Step(old(St()), Promote(obj), St())
    {
      hide Inv, Kept, Reachable, ReferencesYoung, Distinct;
      ghost var s := St();
      YoungMeansListed(s, obj);
      if heap[obj].gen.Old? {
        return;
      }
      var link := 0;
      // a young object is on the young list, so the search finds it
      while young[link] != obj
        invariant link < |young| && obj in young[link..]
        decreases |young| - link
      {
        assert young[link..] == [young[link]] + young[link + 1..];
        link := link + 1;
      }
      KeptWithout(young, link, heap.Keys);
      Relink(link);
      InHandSees(s, obj);
      var b := ReferencesYoungNow(obj);
      if b {
        RememberedSetAdd(obj);
      }
    }

    // Moves the young object at `link` to the front of the old list.
    method Relink(link: nat)
      requires link < |young| && young[link] in heap && youngCount == |young|
      modifies `heap, `young, `youngCount, `tenured, `oldCount
      ensures var obj := old(young)[link];
              && young == old(young)[..link] + old(young)[link + 1..] && youngCount == |young|
              && heap == old(heap)[obj := old(heap)[obj].(gen := Old, age := 0)]
              && tenured == [obj] + old(tenured) && oldCount == old(oldCount) + 1
    {
      var obj := young[link];
      young := young[..link] + young[link + 1..];
      if youngCount > 0 {
        youngCount := youngCount - 1;
      }
      heap := heap[obj := heap[obj].(gen := Old, age := 0)];
      tenured := [obj] + tenured;
      oldCount := oldCount + 1;
    }

    method MaybeCollect()
      requires Inv(St())
      modifies `marked, `pending, `heap, `young, `youngCount, `tenured, `oldCount, `objectCount, `remembered,
               `allocCount, `minorCollections, `majorCollections, `threshold
      ensures MaybeCollected(old(St()), St())
    {
      hide Inv, Minor, Major;
      if noCollect == 0 && allocCount >= threshold {
        CollectMinor();
        MinorKeepsInv(old(St()), St());
        if majorInterval != 0 && minorCollections % majorInterval == 0 {
          ghost var mid := St();
          CollectMajor();
          assert Minor(old(St()), mid) && Major(mid, St());
        }
      }
    }

    method Insert(r: Ref, body: Body)
      requires r !in heap
      modifies `heap, `young, `youngCount, `objectCount, `allocCount, `pinned
      ensures St() == AfterInsert(old(St()), r, body)
    {
      heap := heap[r := Object(Young, 0, body)];
      young := [r] + young;
      CountAllocation();
      pinned := pinned + [Ptr(r)];
    }

    method CountAllocation()
      modifies `youngCount, `objectCount, `allocCount
      ensures youngCount == old(youngCount) + 1 && objectCount == old(objectCount) + 1
      ensures allocCount == old(allocCount) + 1
    {
      youngCount := youngCount + 1;
      objectCount := objectCount + 1;
      allocCount := allocCount + 1;
    }

    /** Allocation: collect when due, then put the new young object in front. */
    method Alloc(body: Body) returns (r: Ref)
      requires Inv(St()) && Edges(body) <= RootRefs(St())
      modifies `marked, `pending, `heap, `young, `youngCount, `tenured, `oldCount, `objectCount, `remembered,
               `allocCount, `minorCollections, `majorCollections, `threshold, `pinned
      ensures Step(old(St()), New(body, r), St())
    {
      hide Inv, MaybeCollected, Edges, RootRefs, AfterInsert;
      MaybeCollect();
      ghost var mid := St();
      SomeAddressIsFree(heap.Keys);
      r :| r !in heap;
      Insert(r, body);
    }
  }

  lemma {:induction false} SomeAddressIsFree(taken: set<Ref>)
    ensures exists r: Ref :: r !in taken
  {
    var bound := AddressBound(taken);
    assert bound !in taken;
  }

  lemma {:induction false} AddressBound(taken: set<Ref>) returns (bound: Ref)
    ensures forall r :: r in taken ==> r < bound
    decreases |taken|
  {
    if taken == {} {
      bound := 0;
    } else {
      var r :| r in taken;
      bound := AddressBound(taken - {r});
      bound := if r < bound then bound else r + 1;
      assert taken == (taken - {r}) + {r};
    }
  }

  lemma InHandIsAllocated(s: State, v: Value)
    requires Inv(s) && InHand(s, v)
    ensures Target(v) <= s.heap.Keys
  {
    if v.Ptr? {
      InHandSees(s, v.ref);
    }
  }

  // What the program holds is allocated, and so is everything it refers to.
  lemma InHandSees(s: State, r: Ref)
    requires Inv(s) && InHand(s, Ptr(r))
    ensures r in s.heap && Strong(s.heap[r].body) <= s.heap.Keys
  {
    NoDanglingIffClosed(s.heap, RootRefs(s) + Elems(s.remembered));
    var S :| Closed(s.heap, S) && RootRefs(s) + Elems(s.remembered) <= S;
    ReachableStaysIn(s.heap, RootRefs(s), S, r);
    assert Edges(s.heap[r].body) <= S;
  }

  lemma YoungMeansListed(s: State, r: Ref)
    requires Inv(s) && r in s.heap
    ensures s.heap[r].gen.Young? <==> r in s.young
    ensures s.youngCount == |s.young| && Distinct(s.young) && Elems(s.young) <= s.heap.Keys
  {
  }

  lemma KeptWithout(s: seq<Ref>, k: nat, U: set<Ref>)
    requires Distinct(s) && k < |s| && Elems(s) <= U
    ensures s[..k] + s[k + 1..] == Kept(s, U - {s[k]})
  {
    hide Kept;
    var keep := U - {s[k]};
    OthersDiffer(s, k, U);
    KeptNext(s, k, keep);
    KeptAppend(s[..k + 1], s[k + 1..], keep);
    assert s[..k + 1] + s[k + 1..] == s;
    KeptAll(s[..k], keep);
    KeptAll(s[k + 1..], keep);
  }

  lemma OthersDiffer(s: seq<Ref>, k: nat, U: set<Ref>)
    requires Distinct(s) && k < |s| && Elems(s) <= U
    ensures Elems(s[..k]) <= U - {s[k]} && Elems(s[k + 1..]) <= U - {s[k]}
  {
    forall r | r in s[..k]
      ensures r in U && r != s[k]
    {
      var i :| 0 <= i < k && s[i] == r;
      assert r in Elems(s);
    }
    forall r | r in s[k + 1..]
      ensures r in U && r != s[k]
    {
      var i :| 0 <= i < |s| - (k + 1) && s[k + 1..][i] == r;
      assert s[k + 1 + i] == r && r in Elems(s);
    }
  }

  /** What the invariant gives a collection to walk in. */
  lemma SafeSet(s: State) returns (S: set<Ref>)
    requires Inv(s)
    ensures Closed(s.heap, S) && RootRefs(s) + Elems(s.remembered) <= S
    ensures s.marked == {} && Lists(s) && forall r :: r in s.remembered ==> r in s.tenured
  {
    NoDanglingIffClosed(s.heap, RootRefs(s) + Elems(s.remembered));
    S :| Closed(s.heap, S) && RootRefs(s) + Elems(s.remembered) <= S;
  }

  lemma MajorTracing(h: Heap, seeds: set<Ref>, m: set<Ref>, p: seq<Ref>)
    requires MarkStep(h, seeds, {}, [], m, p)
    ensures WeakPhase(h, seeds, {}, m, p)
  {
    assert Children(h, {}) == {};
    assert seeds + {} == seeds;
    TracingReachesWeakPhase(h, seeds, {}, m, p, p);
  }

  lemma PartitionByGen(h: Heap, h': Heap, young: seq<Ref>, tenured: seq<Ref>, carriers: set<Ref>, live: set<Ref>)
    requires Partition(h, young, tenured) && h' == BreakAll(h, DeadEphemerons(h, carriers, live))
    ensures Partition(h', young, tenured)
  {
  }

  lemma MajorFreed(h: Heap, young: seq<Ref>, tenured: seq<Ref>, live: set<Ref>)
    requires Partition(h, young, tenured) && live <= h.Keys
    ensures Elems(young) <= h.Keys && Elems(tenured) <= h.Keys - Elems(young)
    ensures Distinct(young) && Distinct(tenured)
    ensures Freed(Freed(h, Elems(young), live), Elems(tenured), live - Elems(young)) == map r | r in h && r in live :: h[r]
    ensures live - Elems(young) - Elems(tenured) == {}
    ensures Kept(tenured, live - Elems(young)) == Kept(tenured, live)
  {
    assert forall r :: r in young ==> r !in tenured;
    KeptAgree(tenured, live, live - Elems(young));
  }

  lemma MajorDone(s: State, live: set<Ref>, s': State)
    requires LeastLive(s.heap, RootRefs(s), {}, live)
    requires s'.young == Kept(s.young, live) && s'.tenured == Kept(s.tenured, live)
    requires s'.heap == MajorHeap(s.heap, live)
    requires s' == s.(young := s'.young, tenured := s'.tenured, heap := s'.heap, marked := {}, remembered := [],
                      pending := [], allocCount := 0, youngCount := |s'.young|, oldCount := |s'.tenured|,
                      objectCount := |s'.young| + |s'.tenured|, majorCollections := s.majorCollections + 1,
                      threshold := CollectThreshold(|s'.young| + |s'.tenured|))
    ensures Major(s, s')
  {
    hide LeastLive;
    assert s' == AfterMajor(s, live);
  }

  lemma StrongWithin(h: Heap, carriers: set<Ref>, live: set<Ref>)
    requires forall r :: r in carriers && r in h ==> Edges(h[r].body) <= live
    ensures forall r :: r in carriers && r in h ==> Strong(h[r].body) <= live
  {
    forall r | r in carriers && r in h
      ensures Strong(h[r].body) <= live
    {
      assert Edges(h[r].body) <= live;
    }
  }

  // The sweep frees nothing that a live or a remembered object refers to.
  lemma SweptSees(h: Heap, young: seq<Ref>, tenured: seq<Ref>, live: set<Ref>, rem: set<Ref>, promotionAge: nat)
    requires live <= h.Keys && forall r :: r in rem ==> r in h && r !in young
    requires forall r :: r in live + rem && r in h ==> Strong(h[r].body) <= live
    ensures var h' := Swept(h, Elems(young), live, promotionAge);
            forall r :: r in live + rem ==> r in h' && Strong(h'[r].body) <= h'.Keys
  {
    var h' := Swept(h, Elems(young), live, promotionAge);
    assert live <= h'.Keys;
    assert forall r :: r in live + rem ==> r in h' && h'[r].body == h[r].body;
  }

  lemma MinorDone(s: State, live: set<Ref>, m: State, s': State)
    requires LeastLive(s.heap, RootRefs(s), Elems(s.remembered), live)
    requires var broken := MinorBroken(s, live);
             var promoted := PromotedSet(broken, live, s.promotionAge);
             && m.heap == Swept(broken, Elems(s.young), live, s.promotionAge)
             && m.young == Kept(s.young, live - promoted)
             && m.tenured == Reversed(Kept(s.young, promoted)) + s.tenured
             && m.remembered == Kept(s.remembered + Kept(s.young, promoted), PointsToYoung(m.heap))
    requires m == s.(young := m.young, tenured := m.tenured, heap := m.heap, marked := {},
                     remembered := m.remembered, pending := [], youngCount := |m.young|,
                     oldCount := |m.tenured|, objectCount := |m.young| + |m.tenured|)
    requires s' == m.(allocCount := 0, minorCollections := m.minorCollections + 1,
                      threshold := CollectThreshold(m.objectCount))
    ensures Minor(s, s')
  {
    hide LeastLive, Swept, PromotedSet, PointsToYoung;
    assert s' == AfterMinor(s, live);
  }
}
