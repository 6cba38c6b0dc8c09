/** What one stretch of marking does to the mark bits and to the list of
    pending ephemerons, as a relation that composes. */
module GcMark {
  import opened GcHeap

  /** Marking from `seeds` takes the mark bits from m0 to m1 and the pending
      list from p0 to p1: everything newly marked has its children marked, the
      newly marked ephemerons are exactly the ones appended, and nothing is
      marked that some strongly closed set around the seeds leaves out. */
  ghost predicate MarkStep(h: Heap, seeds: set<Ref>, m0: set<Ref>, p0: seq<Ref>, m1: set<Ref>, p1: seq<Ref>) {
    && m0 <= m1
    && seeds <= m1
    && (forall x :: x in m1 && x !in m0 ==> x in h && Strong(h[x].body) <= m1)
    && p0 <= p1
    && (forall x :: x in m1 && x !in m0 && IsEphemeron(h, x) ==> x in p1[|p0|..])
    && (forall x :: x in p1[|p0|..] ==> x in m1 && x !in m0 && IsEphemeron(h, x))
    && Minimal(h, seeds, m0, m1)
  }

  ghost predicate Minimal(h: Heap, seeds: set<Ref>, m0: set<Ref>, m1: set<Ref>) {
    forall T :: StrongClosed(h, T) && seeds <= T ==> m1 <= m0 + T
  }

  lemma MarkNothing(h: Heap, m: set<Ref>, p: seq<Ref>)
    ensures MarkStep(h, {}, m, p, m, p)
  {
  }

  lemma MarkStepTrans(h: Heap, A: set<Ref>, B: set<Ref>, m0: set<Ref>, p0: seq<Ref>, m1: set<Ref>, p1: seq<Ref>,
                      m2: set<Ref>, p2: seq<Ref>)
    requires MarkStep(h, A, m0, p0, m1, p1) && MarkStep(h, B, m1, p1, m2, p2)
    ensures MarkStep(h, A + B, m0, p0, m2, p2)
  {
    assert p2[|p0|..] == p1[|p0|..] + p2[|p1|..];
    forall T | StrongClosed(h, T) && A + B <= T
      ensures m2 <= m0 + T
    {
      assert A <= T && B <= T;
      assert m1 <= m0 + T && m2 <= m1 + T;
    }
  }

  /** Marking an object and then everything it refers to is one step from it. */
  lemma MarkObjectStep(h: Heap, r: Ref, m0: set<Ref>, p0: seq<Ref>, m1: set<Ref>, p1: seq<Ref>)
    requires r in h && r !in m0
    requires MarkStep(h, Strong(h[r].body), m0 + {r}, if IsEphemeron(h, r) then p0 + [r] else p0, m1, p1)
    ensures MarkStep(h, {r}, m0, p0, m1, p1)
  {
    var pr := if IsEphemeron(h, r) then p0 + [r] else p0;
    assert p1[|p0|..] == pr[|p0|..] + p1[|pr|..];
    forall T | StrongClosed(h, T) && {r} <= T
      ensures m1 <= m0 + T
    {
      assert r in T;
      assert Strong(h[r].body) <= T;
      assert m1 <= (m0 + {r}) + T;
    }
  }

  predicate DeadKey(h: Heap, e: Ref, m: set<Ref>) {
    IsEphemeron(h, e) && !KeyLive(h[e].body, m)
  }

  /** Where marking stands between the roots and the sweep: m is strongly
      closed around the seeds and around what `extra` refers to, every
      ephemeron of m and of `extra` is either still pending or has its value
      marked, and m is part of every live set. */
  ghost predicate WeakPhase(h: Heap, seeds: set<Ref>, extra: set<Ref>, m: set<Ref>, pending: seq<Ref>) {
    && m <= h.Keys
    && seeds <= m
    && (forall r :: r in extra && r in h ==> Strong(h[r].body) <= m)
    && StrongClosed(h, m)
    && (forall e :: e in pending ==> e in m + extra && IsEphemeron(h, e))
    && (forall e :: e in m + extra && IsEphemeron(h, e) ==> e in pending || Settled(h[e].body, m))
    && (forall T :: LiveClosed(h, seeds, extra, T) ==> m <= T)
  }

  lemma PendingIsEphemeron(h: Heap, seeds: set<Ref>, extra: set<Ref>, m: set<Ref>, pending: seq<Ref>, i: nat)
    requires WeakPhase(h, seeds, extra, m, pending) && i < |pending|
    ensures IsEphemeron(h, pending[i]) && m <= h.Keys
  {
    assert pending[i] in pending;
  }

  predicate Settled(b: Body, m: set<Ref>)
    requires b.Ephemeron?
  {
    KeyLive(b, m) && Target(b.value) <= m
  }

  /** Everything the objects of `rs` refer to. */
  function Children(h: Heap, rs: set<Ref>): set<Ref> {
    set r, y | r in rs && r in h && y in Strong(h[r].body) :: y
  }

  /** The pending list holds the ephemerons marking found and those of `extra`. */
  ghost predicate PendingFrom(h: Heap, traced: seq<Ref>, extra: set<Ref>, pending: seq<Ref>) {
    forall e :: e in pending <==> e in traced || (e in extra && IsEphemeron(h, e))
  }

  /** Tracing one more remembered object, which itself stays unmarked. */
  lemma RememberedStep(h: Heap, seeds: set<Ref>, done: set<Ref>, r: Ref, m: set<Ref>, traced: seq<Ref>, p: seq<Ref>,
                       m1: set<Ref>, p1: seq<Ref>) returns (traced1: seq<Ref>)
    requires r in h
    requires MarkStep(h, seeds + Children(h, done), {}, [], m, traced) && PendingFrom(h, traced, done, p)
    requires MarkStep(h, Strong(h[r].body), m, if IsEphemeron(h, r) then p + [r] else p, m1, p1)
    ensures MarkStep(h, seeds + Children(h, done + {r}), {}, [], m1, traced1)
    ensures PendingFrom(h, traced1, done + {r}, p1)
  {
    StepGrows(h, Strong(h[r].body), m, if IsEphemeron(h, r) then p + [r] else p, m1, p1);
    hide MarkStep, Strong;
    var p' := if IsEphemeron(h, r) then p + [r] else p;
    traced1 := traced + p1[|p'|..];
    MarkStepShift(h, Strong(h[r].body), m, p', m1, p1, traced);
    MarkStepTrans(h, seeds + Children(h, done), Strong(h[r].body), {}, [], m, traced, m1, traced1);
    assert p1 == p' + p1[|p'|..];
    assert Children(h, done + {r}) == Children(h, done) + Strong(h[r].body);
    assert seeds + Children(h, done + {r}) == seeds + Children(h, done) + Strong(h[r].body);
  }

  /** The first half of a collection, up to the ephemeron fixpoint. */
  lemma TracingReachesWeakPhase(h: Heap, seeds: set<Ref>, extra: set<Ref>, m: set<Ref>, p: seq<Ref>,
                                pending: seq<Ref>)
    requires MarkStep(h, seeds + Children(h, extra), {}, [], m, p)
    requires PendingFrom(h, p, extra, pending)
    ensures WeakPhase(h, seeds, extra, m, pending)
  {
    assert p[0..] == p;
    forall r | r in extra && r in h
      ensures Strong(h[r].body) <= m
    {
      forall y | y in Strong(h[r].body) ensures y in m { assert y in Children(h, extra); }
    }
    forall T | LiveClosed(h, seeds, extra, T)
      ensures m <= T
    {
      assert seeds + Children(h, extra) <= T;
      assert m <= {} + T;
    }
  }

  /** One ephemeron of the fixpoint loop: its key is live, its value has been
      marked, and it leaves the pending list. */
  lemma SettleOne(h: Heap, seeds: set<Ref>, extra: set<Ref>, m0: set<Ref>, p0: seq<Ref>, e: Ref, m1: set<Ref>,
                  p1: seq<Ref>, pending: seq<Ref>)
    requires WeakPhase(h, seeds, extra, m0, p0) && e in p0 && KeyLive(h[e].body, m0)
    requires MarkStep(h, Target(h[e].body.value), m0, p0, m1, p1)
    requires forall x :: x in pending ==> x in p1
    requires forall x :: x in p1 && x != e ==> x in pending
    ensures WeakPhase(h, seeds, extra, m1, pending)
  {
    assert p1 == p0 + p1[|p0|..];
    forall T | LiveClosed(h, seeds, extra, T)
      ensures m1 <= T
    {
      assert e in T + extra;
      assert KeyLive(h[e].body, T);
      assert Target(h[e].body.value) <= T;
      assert m1 <= m0 + T;
    }
  }

  /** When no pending key is live the marked set is the least live set, and the
      pending list holds exactly the ephemerons whose key is dead. */
  lemma WeakPhaseDone(h: Heap, seeds: set<Ref>, extra: set<Ref>, m: set<Ref>, pending: seq<Ref>)
    requires WeakPhase(h, seeds, extra, m, pending)
    requires forall e :: e in pending ==> DeadKey(h, e, m)
    ensures LeastLive(h, seeds, extra, m)
    ensures forall e :: e in pending <==> e in m + extra && DeadKey(h, e, m)
  {
    assert StrongClosed(h, m);
    assert LiveClosed(h, seeds, extra, m);
  }

  /** A step does not depend on what was pending before it. */
  lemma MarkStepShift(h: Heap, seeds: set<Ref>, m0: set<Ref>, p0: seq<Ref>, m1: set<Ref>, p1: seq<Ref>, q0: seq<Ref>)
    requires MarkStep(h, seeds, m0, p0, m1, p1)
    ensures MarkStep(h, seeds, m0, q0, m1, q0 + p1[|p0|..])
  {
    assert (q0 + p1[|p0|..])[|q0|..] == p1[|p0|..];
  }

  lemma FirstIsElement(s: seq<Ref>)
    ensures s == [] || s[0] in s
  {
  }

  /** Marking what is already marked changes nothing. */
  lemma MarkKnown(h: Heap, seeds: set<Ref>, m0: set<Ref>, p0: seq<Ref>, m1: set<Ref>, p1: seq<Ref>)
    requires MarkStep(h, seeds, m0, p0, m1, p1) && seeds <= m0 && m0 <= h.Keys
    requires StrongClosed(h, m0)
    ensures m1 == m0 && p1 == p0
  {
    assert m1 <= m0 + m0;
    assert p1 == p0 + p1[|p0|..];
    FirstIsElement(p1[|p0|..]);
  }

  /** Whatever is marked lies in every closed set around the roots. */
  lemma LiveInClosed(h: Heap, seeds: set<Ref>, extra: set<Ref>, S: set<Ref>)
    requires Closed(h, S) && seeds + extra <= S
    ensures LiveClosed(h, seeds, extra, S)
  {
    forall r | r in S && r in h
      ensures Strong(h[r].body) <= S
    {
      assert Edges(h[r].body) <= S;
    }
  }

  lemma SwapRemoved(p: seq<Ref>, i: nat, q: seq<Ref>)
    requires i < |p| && q == p[i := p[|p| - 1]][..|p| - 1]
    ensures forall x :: x in q ==> x in p
    ensures forall x :: x in p && x != p[i] ==> x in q
  {
    forall x | x in p && x != p[i]
      ensures x in q
    {
      var j :| 0 <= j < |p| && p[j] == x;
      assert x == if j == |p| - 1 then q[i] else q[j];
    }
  }

  lemma NothingRemembered(h: Heap, pending: seq<Ref>)
    ensures Children(h, {}) == {} && PendingFrom(h, pending, {}, pending)
  {
  }

  lemma ClosedAt(h: Heap, S: set<Ref>, r: Ref)
    requires Closed(h, S) && r in S
    ensures r in h && Edges(h[r].body) <= S
  {
  }

  lemma PendingIsCarrier(h: Heap, seeds: set<Ref>, extra: set<Ref>, m: set<Ref>, pending: seq<Ref>, i: nat)
    requires WeakPhase(h, seeds, extra, m, pending) && i < |pending|
    ensures pending[i] in m + extra && m <= h.Keys && StrongClosed(h, m)
  {
    assert pending[i] in pending;
  }

  lemma WeakPhaseInClosed(h: Heap, seeds: set<Ref>, extra: set<Ref>, m: set<Ref>, pending: seq<Ref>, S: set<Ref>)
    requires WeakPhase(h, seeds, extra, m, pending) && Closed(h, S) && seeds + extra <= S
    ensures m <= S
  {
    LiveInClosed(h, seeds, extra, S);
  }

  lemma StepGrows(h: Heap, seeds: set<Ref>, m0: set<Ref>, p0: seq<Ref>, m1: set<Ref>, p1: seq<Ref>)
    requires MarkStep(h, seeds, m0, p0, m1, p1)
    ensures m0 <= m1 && p0 <= p1
  {
  }

  lemma ElemsNext(s: seq<Ref>, i: nat)
    requires i < |s|
    ensures Elems(s[..i + 1]) == Elems(s[..i]) + {s[i]}
  {
    assert s[..i + 1] == s[..i] + [s[i]];
  }

  lemma TargetsNext(vs: seq<Value>, i: nat)
    requires i < |vs|
    ensures Targets(vs[..i + 1]) == Targets(vs[..i]) + Target(vs[i])
    ensures Target(vs[i]) <= Targets(vs)
    ensures Targets(vs[..0]) == {}
  {
    assert vs[..i + 1] == vs[..i] + [vs[i]];
    assert vs[i] in vs;
  }

  /** A step that marks nothing appends nothing. */
  lemma StepCounts(h: Heap, seeds: set<Ref>, m0: set<Ref>, p0: seq<Ref>, m1: set<Ref>, p1: seq<Ref>)
    requires MarkStep(h, seeds, m0, p0, m1, p1)
    ensures m0 < m1 || (m0 == m1 && p1 == p0)
    ensures |p0| <= |p1|
  {
    assert p1 == p0 + p1[|p0|..];
    FirstIsElement(p1[|p0|..]);
  }
}
