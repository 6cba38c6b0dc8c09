/** The collector's state as a value, and what each collection makes of it. */
module GcSpec {
  import opened GcHeap

  datatype State = State(
    heap: Heap,
    young: seq<Ref>,
    tenured: seq<Ref>,
    marked: set<Ref>,
    remembered: seq<Ref>,
    pending: seq<Ref>,
    pinned: seq<Value>,
    roots: seq<Value>,
    youngCount: nat,
    oldCount: nat,
    objectCount: nat,
    allocCount: nat,
    threshold: nat,
    minorCollections: nat,
    majorCollections: nat,
    promotionAge: nat,
    majorInterval: nat,
    noCollect: nat)

  const DEFAULT_THRESHOLD := 1024
  const AGE_MODULUS := 256

  ghost predicate Distinct(s: seq<Ref>) {
    forall i, j :: 0 <= i < j < |s| ==> s[i] != s[j]
  }

  function RootRefs(s: State): set<Ref> {
    Targets(s.pinned) + Targets(s.roots)
  }

  // ---- the invariant ----------------------------------------------------

  /** The two object lists partition the heap and the generation bits agree. */
  ghost predicate Partition(h: Heap, young: seq<Ref>, tenured: seq<Ref>) {
    && Distinct(young) && Distinct(tenured)
    && (forall r :: r in young ==> r in h && h[r].gen.Young?)
    && (forall r :: r in tenured ==> r in h && h[r].gen.Old?)
    && (forall r :: r in h ==> r in young || r in tenured)
  }

  /** The lists, the generation bits and the three counters agree. */
  ghost predicate Lists(s: State) {
    && Partition(s.heap, s.young, s.tenured)
    && s.youngCount == |s.young|
    && s.oldCount == |s.tenured|
    && s.objectCount == |s.young| + |s.tenured|
  }

  /** What holds between any two operations: besides the lists, nothing is
      marked, only old objects are remembered, and no pointer that can be
      followed from the roots or from a remembered object dangles. */
  ghost predicate Inv(s: State) {
    && Lists(s)
    && s.marked == {}
    && s.pending == []
    && (forall r :: r in s.remembered ==> r in s.tenured)
    && NoDangling(s.heap, RootRefs(s) + Elems(s.remembered))
  }

  // ---- keeping part of a list -------------------------------------------

  /** The elements of s that lie in `keep`, in order. */
  function Kept(s: seq<Ref>, keep: set<Ref>): (k: seq<Ref>)
    ensures forall r :: r in k <==> r in s && r in keep
    ensures |k| <= |s|
  {
    if s == [] then [] else
      var front := Kept(s[..|s| - 1], keep);
      if s[|s| - 1] in keep then front + [s[|s| - 1]] else front
  }

  function Reversed(s: seq<Ref>): (t: seq<Ref>)
    ensures |t| == |s|
    ensures forall i :: 0 <= i < |s| ==> t[i] == s[|s| - 1 - i]
    ensures forall r :: r in t <==> r in s
  {
    if s == [] then [] else [s[|s| - 1]] + Reversed(s[..|s| - 1])
  }

  lemma KeptNext(s: seq<Ref>, k: nat, keep: set<Ref>)
    requires k < |s|
    ensures Kept(s[..k + 1], keep) == if s[k] in keep then Kept(s[..k], keep) + [s[k]] else Kept(s[..k], keep)
  {
    assert s[..k + 1][..k] == s[..k];
  }

  lemma KeptNone(s: seq<Ref>, keep: set<Ref>)
    ensures Kept(s[..0], keep) == []
  {
  }

  lemma {:induction false} KeptAgree(s: seq<Ref>, A: set<Ref>, B: set<Ref>)
    requires forall r :: r in s ==> (r in A <==> r in B)
    ensures Kept(s, A) == Kept(s, B)
  {
    if s != [] {
      KeptAgree(s[..|s| - 1], A, B);
    }
  }

  lemma {:induction false} KeptDistinct(s: seq<Ref>, keep: set<Ref>)
    requires Distinct(s)
    ensures Distinct(Kept(s, keep))
  {
    if s != [] {
      KeptDistinct(s[..|s| - 1], keep);
      assert s[|s| - 1] !in s[..|s| - 1];
    }
  }

  lemma {:induction false} KeptKept(s: seq<Ref>, A: set<Ref>, B: set<Ref>)
    ensures Kept(Kept(s, A), B) == Kept(s, A * B)
  {
    if s != [] {
      var t := s[..|s| - 1];
      KeptKept(t, A, B);
      if s[|s| - 1] in A {
        assert Kept(s, A)[..|Kept(s, A)| - 1] == Kept(t, A);
      }
    }
  }

  lemma {:induction false} KeptAppend(s: seq<Ref>, t: seq<Ref>, keep: set<Ref>)
    ensures Kept(s + t, keep) == Kept(s, keep) + Kept(t, keep)
  {
    if t == [] {
      assert s + t == s;
    } else {
      KeptAppend(s, t[..|t| - 1], keep);
      assert (s + t)[..|s + t| - 1] == s + t[..|t| - 1];
    }
  }

  lemma {:induction false} KeptSplitSize(s: seq<Ref>, A: set<Ref>, B: set<Ref>, C: set<Ref>)
    requires forall r :: r in s && r in A ==> (r in B <==> r !in C)
    requires forall r :: r in s && r !in A ==> r !in B && r !in C
    ensures |Kept(s, A)| == |Kept(s, B)| + |Kept(s, C)|
  {
    if s != [] {
      KeptSplitSize(s[..|s| - 1], A, B, C);
    }
  }

  /** The heap once the unmarked objects of `done` are freed. */
  function Freed(h: Heap, done: set<Ref>, m: set<Ref>): (f: Heap)
    ensures h.Keys - done <= f.Keys
  {
    map r | r in h && (r in done ==> r in m) :: h[r]
  }

  lemma FreedNext(h: Heap, done: set<Ref>, m: set<Ref>, obj: Ref)
    requires obj !in done
    ensures Freed(h, done + {obj}, m) == if obj in m then Freed(h, done, m) else Freed(h, done, m) - {obj}
  {
  }

  // The loop invariant of a sweep that has visited the first `done` elements
  // of `list`.
  ghost predicate Sweeping(h0: Heap, list: seq<Ref>, m0: set<Ref>, done: nat, h: Heap, m: set<Ref>, kept: seq<Ref>, link: nat)
  {
    && done <= |list|
    && kept == Kept(list[..done], m0) + list[done..]
    && link == |Kept(list[..done], m0)|
    && h == Freed(h0, Elems(list[..done]), m0)
    && m == m0 - Elems(list[..done])
  }

  lemma SweepStart(h: Heap, list: seq<Ref>, m: set<Ref>)
    ensures Sweeping(h, list, m, 0, h, m, list, 0)
  {
  }

  lemma SweepEnd(h0: Heap, list: seq<Ref>, m0: set<Ref>, done: nat, h: Heap, m: set<Ref>, kept: seq<Ref>, link: nat)
    requires Sweeping(h0, list, m0, done, h, m, kept, link) && link >= |kept|
    ensures kept == Kept(list, m0) && h == Freed(h0, Elems(list), m0) && m == m0 - Elems(list)
  {
    assert list[..done] == list;
  }

  lemma SweepVisit(h0: Heap, list: seq<Ref>, m0: set<Ref>, done: nat, h: Heap, m: set<Ref>, kept: seq<Ref>, link: nat)
    requires Sweeping(h0, list, m0, done, h, m, kept, link) && link < |kept|
    requires Distinct(list) && Elems(list) <= h0.Keys
    ensures done < |list| && |kept| <= |list| && kept[link] in h
    ensures if kept[link] in m
            then Sweeping(h0, list, m0, done + 1, h, m - {kept[link]}, kept, link + 1)
            else Sweeping(h0, list, m0, done + 1, h - {kept[link]}, m, kept[..link] + kept[link + 1..], link)
  {
    hide Kept, Freed, Distinct;
    var obj := kept[link];
    SweepNext(list, done, m0);
    FreedNext(h0, Elems(list[..done]), m0, obj);
    Unlinked(kept, Kept(list[..done], m0), obj, list[done + 1..], kept[..link] + kept[link + 1..]);
  }

  lemma Unlinked(s: seq<Ref>, front: seq<Ref>, obj: Ref, rest: seq<Ref>, t: seq<Ref>)
    requires s == front + ([obj] + rest) && t == s[..|front|] + s[|front| + 1..]
    ensures t == front + rest
  {
  }

  /** One step of a sweep down a list without repetitions. */
  lemma SweepNext(s: seq<Ref>, k: nat, keep: set<Ref>)
    requires k < |s| && Distinct(s)
    ensures s[k] in s && s[k] !in Elems(s[..k])
    ensures Elems(s[..k + 1]) == Elems(s[..k]) + {s[k]}
    ensures Kept(s[..k + 1], keep) == if s[k] in keep then Kept(s[..k], keep) + [s[k]] else Kept(s[..k], keep)
    ensures s[k..] == [s[k]] + s[k + 1..]
  {
    hide Kept;
    KeptNext(s, k, keep);
    NotBefore(s, k);
    assert s[..k + 1] == s[..k] + [s[k]];
  }

  lemma NotBefore(s: seq<Ref>, k: nat)
    requires k < |s| && Distinct(s)
    ensures s[k] !in Elems(s[..k])
  {
  }

  // ---- breaking ephemerons ----------------------------------------------

  function Break(o: Object): Object {
    o.(body := Ephemeron(FALSE_VALUE, FALSE_VALUE, true))
  }

  /** The heap after the ephemerons of `dead` lost key and value. */
  function BreakAll(h: Heap, dead: set<Ref>): (h': Heap)
    ensures h'.Keys == h.Keys
  {
    map r | r in h :: if r in dead then Break(h[r]) else h[r]
  }

  /** The carriers whose key is not in the live set. */
  function DeadEphemerons(h: Heap, carriers: set<Ref>, live: set<Ref>): set<Ref> {
    set e | e in carriers && IsEphemeron(h, e) && !KeyLive(h[e].body, live)
  }

  // ---- a major collection -----------------------------------------------

  function CollectThreshold(objects: nat): nat {
    objects * 2 + DEFAULT_THRESHOLD
  }

  /** Exactly the live objects stay, the ephemerons with a dead key broken. */
  function MajorHeap(h: Heap, live: set<Ref>): Heap {
    var broken := BreakAll(h, DeadEphemerons(h, live, live));
    map r | r in broken && r in live :: broken[r]
  }

  function AfterMajor(s: State, live: set<Ref>): State {
    var young, tenured := Kept(s.young, live), Kept(s.tenured, live);
    s.(heap := MajorHeap(s.heap, live),
       young := young,
       tenured := tenured,
       marked := {},
       remembered := [],
       pending := [],
       youngCount := |young|,
       oldCount := |tenured|,
       objectCount := |young| + |tenured|,
       allocCount := 0,
       threshold := CollectThreshold(|young| + |tenured|),
       majorCollections := s.majorCollections + 1)
  }

  ghost predicate Major(s: State, s': State) {
    exists live :: LeastLive(s.heap, RootRefs(s), {}, live) && s' == AfterMajor(s, live)
  }

  // ---- a minor collection -----------------------------------------------

  /** A survivor of a minor collection: one collection older, and old once it
      reaches the promotion age.  Ages are bytes and wrap. */
  function Aged(o: Object, promotionAge: nat): Object {
    var age := (o.age + 1) % AGE_MODULUS;
    if age >= promotionAge then o.(gen := Old, age := 0) else o.(age := age)
  }

  /** The heap after the young objects of `done` were visited by the sweep. */
  function Swept(h: Heap, done: set<Ref>, live: set<Ref>, promotionAge: nat): Heap {
    map r | r in h && (r in done ==> r in live) :: if r in done then Aged(h[r], promotionAge) else h[r]
  }

  function PromotedSet(h: Heap, live: set<Ref>, promotionAge: nat): set<Ref> {
    set r | r in live && r in h && Aged(h[r], promotionAge).gen.Old?
  }

  predicate YoungTarget(h: Heap, v: Value) {
    v.Ptr? && v.ref in h && h[v.ref].gen.Young?
  }

  predicate ReferencesYoung(h: Heap, b: Body) {
    b.Container? && exists v :: v in b.scanned && YoungTarget(h, v)
  }

  /** The old objects the remembered set must hold. */
  function PointsToYoung(h: Heap): set<Ref> {
    set r | r in h && h[r].gen.Old? && ReferencesYoung(h, h[r].body)
  }

  /** The heap between the ephemeron fixpoint and the sweep. */
  function MinorBroken(s: State, live: set<Ref>): Heap {
    BreakAll(s.heap, DeadEphemerons(s.heap, live + Elems(s.remembered), live))
  }

  // The loop invariant of a minor sweep that has visited the first `done`
  // objects of the young list `list`; `noted` are the promoted objects that
  // referred to a young one when they were promoted.
  ghost predicate MinorSweeping(h0: Heap, list: seq<Ref>, live: set<Ref>, age: nat, t0: seq<Ref>, rem0: seq<Ref>,
                                done: nat, h: Heap, m: set<Ref>, young: seq<Ref>, link: nat, tenured: seq<Ref>,
                                rem: seq<Ref>, noted: set<Ref>)
  {
    var promoted := PromotedSet(h0, live, age);
    var seen := Elems(list[..if done <= |list| then done else 0]);
    && done <= |list|
    && young == Kept(list[..done], live - promoted) + list[done..]
    && link == |Kept(list[..done], live - promoted)|
    && tenured == Reversed(Kept(list[..done], promoted)) + t0
    && h == Swept(h0, seen, live, age)
    && m == live - seen
    && rem == rem0 + Kept(list[..done], noted)
    && noted <= promoted * seen
    && (forall r :: r in promoted && r in seen && r !in noted ==> !ReferencesYoung(h, h0[r].body))
  }

  lemma MinorSweepStart(h0: Heap, list: seq<Ref>, live: set<Ref>, age: nat, t0: seq<Ref>, rem0: seq<Ref>)
    ensures MinorSweeping(h0, list, live, age, t0, rem0, 0, h0, live, list, 0, t0, rem0, {})
  {
  }

  lemma MinorSweepEnd(h0: Heap, list: seq<Ref>, live: set<Ref>, age: nat, t0: seq<Ref>, rem0: seq<Ref>,
                      done: nat, h: Heap, m: set<Ref>, young: seq<Ref>, link: nat, tenured: seq<Ref>,
                      rem: seq<Ref>, noted: set<Ref>)
    requires MinorSweeping(h0, list, live, age, t0, rem0, done, h, m, young, link, tenured, rem, noted)
    requires link >= |young| && Distinct(t0) && Distinct(list)
    requires forall r :: r in PromotedSet(h0, live, age) && r in list ==> r in h0
    ensures var promoted := PromotedSet(h0, live, age);
            && young == Kept(list, live - promoted)
            && tenured == Reversed(Kept(list, promoted)) + t0
            && h == Swept(h0, Elems(list), live, age)
            && m == live - Elems(list)
            && Kept(rem, PointsToYoung(h)) == Kept(rem0 + Kept(list, promoted), PointsToYoung(h))
  {
    hide Reversed, ReferencesYoung;
    var promoted := PromotedSet(h0, live, age);
    var Y := PointsToYoung(h);
    assert list[..done] == list;
    KeptKept(list, noted, Y);
    KeptKept(list, promoted, Y);
    KeptAgree(list, noted * Y, promoted * Y);
    KeptAppend(rem0, Kept(list, noted), Y);
    KeptAppend(rem0, Kept(list, promoted), Y);
  }

  /** Ageing never makes an object young. */
  lemma SweptMonotone(h0: Heap, seen: set<Ref>, obj: Ref, live: set<Ref>, age: nat, b: Body)
    requires ReferencesYoung(Swept(h0, seen + {obj}, live, age), b)
    ensures ReferencesYoung(Swept(h0, seen, live, age), b)
  {
    var v :| v in b.scanned && YoungTarget(Swept(h0, seen + {obj}, live, age), v);
    assert YoungTarget(Swept(h0, seen, live, age), v);
  }

  lemma SweptNext(h0: Heap, seen: set<Ref>, obj: Ref, live: set<Ref>, age: nat)
    requires obj in h0 && obj !in seen
    ensures var h := Swept(h0, seen, live, age);
            && obj in h && h[obj] == h0[obj]
            && Swept(h0, seen + {obj}, live, age) == if obj in live then h[obj := Aged(h0[obj], age)] else h - {obj}
  {
  }

  lemma ReversedAppend(s: seq<Ref>, obj: Ref, t: seq<Ref>)
    ensures Reversed(s + [obj]) + t == [obj] + (Reversed(s) + t)
  {
    assert (s + [obj])[..|s|] == s;
  }

  lemma MinorSweepSees(h0: Heap, list: seq<Ref>, live: set<Ref>, age: nat, t0: seq<Ref>, rem0: seq<Ref>,
                       done: nat, h: Heap, m: set<Ref>, young: seq<Ref>, link: nat, tenured: seq<Ref>,
                       rem: seq<Ref>, noted: set<Ref>)
    requires MinorSweeping(h0, list, live, age, t0, rem0, done, h, m, young, link, tenured, rem, noted)
    requires link < |young| && live <= h0.Keys && forall r :: r in live ==> Strong(h0[r].body) <= live
    ensures m <= live <= h.Keys
    ensures young[link] in m ==> young[link] in h && Strong(h[young[link]].body) <= h.Keys
  {
    hide Kept, Reversed, ReferencesYoung;
    assert forall r :: r in live ==> r in h && h[r].body == h0[r].body;
  }

  // The object a minor sweep visits next.
  lemma MinorSweepNext(h0: Heap, list: seq<Ref>, live: set<Ref>, age: nat, t0: seq<Ref>, rem0: seq<Ref>,
                       done: nat, h: Heap, m: set<Ref>, young: seq<Ref>, link: nat, tenured: seq<Ref>,
                       rem: seq<Ref>, noted: set<Ref>)
    requires MinorSweeping(h0, list, live, age, t0, rem0, done, h, m, young, link, tenured, rem, noted)
    requires link < |young| && Distinct(list) && Elems(list) <= h0.Keys
    ensures var obj := young[link];
            var seen := Elems(list[..done]);
            var promoted := PromotedSet(h0, live, age);
            && done < |list| && obj == list[done] && obj !in seen && obj in h && h[obj] == h0[obj]
            && Elems(list[..done + 1]) == seen + {obj}
            && young[..link] + young[link + 1..] == Kept(list[..done], live - promoted) + list[done + 1..]
            && list[done..] == [obj] + list[done + 1..]
            && (obj in promoted <==> obj in live && Aged(h[obj], age).gen.Old?)
            && (obj in m <==> obj in live)
            && live - Elems(list[..done + 1]) == m - {obj}
            && Swept(h0, seen + {obj}, live, age) == if obj in live then h[obj := Aged(h0[obj], age)] else h - {obj}
    ensures forall r :: r in PromotedSet(h0, live, age) && r in Elems(list[..done]) && r !in noted ==>
              !ReferencesYoung(Swept(h0, Elems(list[..done]) + {young[link]}, live, age), h0[r].body)
  {
    hide Kept, Swept, Reversed, ReferencesYoung, Distinct;
    var obj := young[link];
    var promoted := PromotedSet(h0, live, age);
    SweepNext(list, done, promoted);
    SweptNext(h0, Elems(list[..done]), obj, live, age);
    Unlinked(young, Kept(list[..done], live - promoted), obj, list[done + 1..], young[..link] + young[link + 1..]);
    forall r | r in promoted && r in Elems(list[..done]) && r !in noted
      ensures !ReferencesYoung(Swept(h0, Elems(list[..done]) + {obj}, live, age), h0[r].body)
    {
      if ReferencesYoung(Swept(h0, Elems(list[..done]) + {obj}, live, age), h0[r].body) {
        SweptMonotone(h0, Elems(list[..done]), obj, live, age, h0[r].body);
      }
    }
  }

  // A dead object is unlinked and freed; a survivor that is not old enough
  // stays where it is.
  lemma MinorSweepStay(h0: Heap, list: seq<Ref>, live: set<Ref>, age: nat, t0: seq<Ref>, rem0: seq<Ref>,
                       done: nat, h: Heap, m: set<Ref>, young: seq<Ref>, link: nat, tenured: seq<Ref>,
                       rem: seq<Ref>, noted: set<Ref>)
    requires MinorSweeping(h0, list, live, age, t0, rem0, done, h, m, young, link, tenured, rem, noted)
    requires link < |young| && Distinct(list) && Elems(list) <= h0.Keys
    ensures var obj := young[link];
            obj !in m ==>
              MinorSweeping(h0, list, live, age, t0, rem0, done + 1, h - {obj}, m, young[..link] + young[link + 1..], link,
                            tenured, rem, noted)
    ensures var obj := young[link];
            obj in h && obj in m && Aged(h[obj], age).gen.Young? ==>
              MinorSweeping(h0, list, live, age, t0, rem0, done + 1, h[obj := Aged(h[obj], age)], m - {obj}, young, link + 1,
                            tenured, rem, noted)
  {
    hide Kept, Swept, Reversed, ReferencesYoung, Distinct, PromotedSet;
    MinorSweepNext(h0, list, live, age, t0, rem0, done, h, m, young, link, tenured, rem, noted);
    var promoted := PromotedSet(h0, live, age);
    KeptNext(list, done, live - promoted);
    KeptNext(list, done, promoted);
    KeptNext(list, done, noted);
  }

  // A survivor that is old enough moves to the front of the old list, and is
  // noted in the remembered set when it refers to a young object.
  lemma MinorSweepPromote(h0: Heap, list: seq<Ref>, live: set<Ref>, age: nat, t0: seq<Ref>, rem0: seq<Ref>,
                          done: nat, h: Heap, m: set<Ref>, young: seq<Ref>, link: nat, tenured: seq<Ref>,
                          rem: seq<Ref>, noted: set<Ref>)
    requires MinorSweeping(h0, list, live, age, t0, rem0, done, h, m, young, link, tenured, rem, noted)
    requires link < |young| && Distinct(list) && Elems(list) <= h0.Keys
    requires young[link] in m && young[link] in h && Aged(h[young[link]], age).gen.Old?
    ensures var obj := young[link];
            var o := Aged(h[obj], age);
            var note := ReferencesYoung(h[obj := o], o.body);
            MinorSweeping(h0, list, live, age, t0, rem0, done + 1, h[obj := o], m - {obj}, young[..link] + young[link + 1..],
                          link, [obj] + tenured, if note then rem + [obj] else rem, if note then noted + {obj} else noted)
  {
    hide Kept, Swept, Reversed, ReferencesYoung, Distinct, PromotedSet;
    MinorSweepNext(h0, list, live, age, t0, rem0, done, h, m, young, link, tenured, rem, noted);
    var obj := young[link];
    var promoted := PromotedSet(h0, live, age);
    KeptNext(list, done, live - promoted);
    KeptNext(list, done, promoted);
    KeptNext(list, done, noted);
    KeptNext(list, done, noted + {obj});
    KeptAgree(list[..done], noted, noted + {obj});
    ReversedAppend(Kept(list[..done], promoted), obj, t0);
    assert rem0 + (Kept(list[..done], noted) + [obj]) == rem + [obj];
  }

  function AfterMinor(s: State, live: set<Ref>): State {
    var broken := MinorBroken(s, live);
    var heap := Swept(broken, Elems(s.young), live, s.promotionAge);
    var promoted := PromotedSet(broken, live, s.promotionAge);
    var young := Kept(s.young, live - promoted);
    var newlyOld := Kept(s.young, promoted);
    s.(heap := heap,
       young := young,
       tenured := Reversed(newlyOld) + s.tenured,
       marked := {},
       remembered := Kept(s.remembered + newlyOld, PointsToYoung(heap)),
       pending := [],
       youngCount := |young|,
       oldCount := |newlyOld| + |s.tenured|,
       objectCount := |young| + |newlyOld| + |s.tenured|,
       allocCount := 0,
       threshold := CollectThreshold(|young| + |newlyOld| + |s.tenured|),
       minorCollections := s.minorCollections + 1)
  }

  ghost predicate Minor(s: State, s': State) {
    exists live ::
      LeastLive(s.heap, RootRefs(s), Elems(s.remembered), live) && s' == AfterMinor(s, live)
  }

  // ---- what both keep ---------------------------------------------------

  lemma MajorKeepsLists(s: State, live: set<Ref>)
    requires Lists(s)
    ensures Lists(AfterMajor(s, live))
  {
    KeptDistinct(s.young, live);
    KeptDistinct(s.tenured, live);
  }

  lemma BrokenIsClosed(h: Heap, S: set<Ref>, seeds: set<Ref>, extra: set<Ref>, live: set<Ref>)
    requires Closed(h, S) && seeds + extra <= S && LeastLive(h, seeds, extra, live)
    ensures live <= S
    ensures var h' := BreakAll(h, DeadEphemerons(h, live + extra, live));
            forall r :: r in live + extra && r in h ==> Edges(h'[r].body) <= live
  {
    forall r | r in S && r in h ensures Strong(h[r].body) <= S {
      assert Edges(h[r].body) <= S;
    }
    assert LiveClosed(h, seeds, extra, S);
    var h' := BreakAll(h, DeadEphemerons(h, live + extra, live));
    forall r | r in live + extra && r in h
      ensures Edges(h'[r].body) <= live
    {
      if IsEphemeron(h, r) {
        if KeyLive(h[r].body, live) { assert Target(h[r].body.value) <= live; }
      } else {
        assert Strong(h[r].body) <= live;
      }
    }
  }

  /** A major collection keeps the invariant. */
  lemma MajorKeepsInv(s: State, s': State)
    requires Inv(s) && Major(s, s')
    ensures Inv(s')
  {
    var live :| LeastLive(s.heap, RootRefs(s), {}, live) && s' == AfterMajor(s, live);
    MajorKeepsLists(s, live);
    NoDanglingIffClosed(s.heap, RootRefs(s) + Elems(s.remembered));
    var S :| Closed(s.heap, S) && RootRefs(s) + Elems(s.remembered) <= S;
    BrokenIsClosed(s.heap, S, RootRefs(s), {}, live);
    assert live + {} == live;
    assert Closed(s'.heap, live);
    assert RootRefs(s') + Elems(s'.remembered) <= live;
    NoDanglingIffClosed(s'.heap, RootRefs(s') + Elems(s'.remembered));
  }

  lemma ConcatDistinct(s: seq<Ref>, t: seq<Ref>)
    requires Distinct(s) && Distinct(t) && forall r :: r in s ==> r !in t
    ensures Distinct(Reversed(s) + t)
  {
    var u := Reversed(s) + t;
    forall i, j | 0 <= i < j < |u|
      ensures u[i] != u[j]
    {
      if j < |s| {
        assert u[i] == s[|s| - 1 - i] && u[j] == s[|s| - 1 - j];
      } else if i < |s| {
        assert u[i] in s && u[j] == t[j - |s|];
      } else {
        assert u[i] == t[i - |s|] && u[j] == t[j - |s|];
      }
    }
  }

  lemma SweptPartition(h: Heap, young: seq<Ref>, tenured: seq<Ref>, live: set<Ref>, promotionAge: nat)
    requires Partition(h, young, tenured)
    ensures var promoted := PromotedSet(h, live, promotionAge);
            Partition(Swept(h, Elems(young), live, promotionAge), Kept(young, live - promoted),
                      Reversed(Kept(young, promoted)) + tenured)
  {
    var promoted := PromotedSet(h, live, promotionAge);
    var h' := Swept(h, Elems(young), live, promotionAge);
    KeptDistinct(young, live - promoted);
    KeptDistinct(young, promoted);
    assert forall r :: r in young ==> r !in tenured;
    ConcatDistinct(Kept(young, promoted), tenured);
    forall r | r in h'
      ensures r in Kept(young, live - promoted) || r in Reversed(Kept(young, promoted)) + tenured
    {
      if r in young {
        assert r in live;
      }
    }
  }

  lemma MinorKeepsLists(s: State, live: set<Ref>)
    requires Lists(s)
    ensures Lists(AfterMinor(s, live))
  {
    var broken := MinorBroken(s, live);
    assert Partition(broken, s.young, s.tenured);
    SweptPartition(broken, s.young, s.tenured, live, s.promotionAge);
  }

  /** After the sweep the live objects and the remembered ones form a set no
      edge leaves. */
  lemma SweptIsClosed(h: Heap, young: seq<Ref>, live: set<Ref>, rem: set<Ref>, promotionAge: nat)
    requires live + rem <= h.Keys
    requires forall r :: r in rem && r in young ==> r in live
    requires forall r :: r in live + rem ==> Edges(h[r].body) <= live
    ensures Closed(Swept(h, Elems(young), live, promotionAge), live + rem)
  {
    var h' := Swept(h, Elems(young), live, promotionAge);
    forall r | r in live + rem
      ensures r in h' && h'[r].body == h[r].body
    {
      assert r in Elems(young) ==> r in live;
    }
  }

  lemma RememberedAreLive(s: State, live: set<Ref>)
    ensures Elems(AfterMinor(s, live).remembered) <= live + Elems(s.remembered)
  {
  }

  lemma MinorKeepsSafety(s: State, live: set<Ref>)
    requires Inv(s) && LeastLive(s.heap, RootRefs(s), Elems(s.remembered), live)
    ensures NoDangling(AfterMinor(s, live).heap, RootRefs(s) + Elems(AfterMinor(s, live).remembered))
  {
    var rem := Elems(s.remembered);
    NoDanglingIffClosed(s.heap, RootRefs(s) + rem);
    var S :| Closed(s.heap, S) && RootRefs(s) + rem <= S;
    BrokenIsClosed(s.heap, S, RootRefs(s), rem, live);
    var broken := MinorBroken(s, live);
    assert live + rem <= broken.Keys;
    assert forall r :: r in s.young ==> r !in s.tenured;
    SweptIsClosed(broken, s.young, live, rem, s.promotionAge);
    RememberedAreLive(s, live);
    NoDanglingIffClosed(AfterMinor(s, live).heap, RootRefs(s) + Elems(AfterMinor(s, live).remembered));
  }

  lemma RememberedAreOld(s: State, live: set<Ref>)
    requires Lists(s) && forall r :: r in s.remembered ==> r in s.tenured
    ensures forall r :: r in AfterMinor(s, live).remembered ==> r in AfterMinor(s, live).tenured
  {
  }

  /** A minor collection keeps the invariant, whatever dead old objects the
      remembered set still holds. */
  lemma MinorKeepsInv(s: State, s': State)
    requires Inv(s) && Minor(s, s')
    ensures Inv(s')
  {
    var live :| LeastLive(s.heap, RootRefs(s), Elems(s.remembered), live) && s' == AfterMinor(s, live);
    MinorKeepsLists(s, live);
    MinorKeepsSafety(s, live);
    RememberedAreOld(s, live);
    assert RootRefs(s') == RootRefs(s);
  }
}
