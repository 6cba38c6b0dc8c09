/** The object graph the collector works on, and what "reachable" means in it.
    Addresses are natural numbers; an address that is not a key of the heap is
    a dangling pointer. */
module GcHeap {
  type Ref = nat

  datatype Value = Imm(bits: nat) | Ptr(ref: Ref)

  const FALSE_VALUE := Imm(1)

  datatype Generation = Young | Old

  /** What the tracer sees of an object.  `scanned` are the fields that both the
      tracer and references_young read; `unscanned` are the few fields only the
      tracer reads (a continuation's open upvalues, a fiber's saved frames,
      winds, handlers and parameter bindings). */
  datatype Body =
    | Container(scanned: seq<Value>, unscanned: seq<Value>)
    | Ephemeron(key: Value, value: Value, broken: bool)

  datatype Object = Object(gen: Generation, age: nat, body: Body)

  type Heap = map<Ref, Object>

  function Target(v: Value): set<Ref> {
    if v.Ptr? then {v.ref} else {}
  }

  function Targets(vs: seq<Value>): set<Ref> {
    set v | v in vs && v.Ptr? :: v.ref
  }

  function Elems(s: seq<Ref>): set<Ref> {
    set r | r in s
  }

  function Traced(b: Body): seq<Value> {
    match b
    case Container(s, u) => s + u
    case Ephemeron(_, _, _) => []
  }

  /** The edges a mark follows at once. */
  function Strong(b: Body): set<Ref> {
    Targets(Traced(b))
  }

  /** Every address stored in the object, an ephemeron's key and value included. */
  function Edges(b: Body): set<Ref> {
    match b
    case Container(_, _) => Strong(b)
    case Ephemeron(k, v, _) => Target(k) + Target(v)
  }

  predicate IsEphemeron(h: Heap, r: Ref) {
    r in h && h[r].body.Ephemeron?
  }

  ghost predicate StrongClosed(h: Heap, S: set<Ref>) {
    forall r :: r in S && r in h ==> Strong(h[r].body) <= S
  }

  /** A set of live objects that no stored address leaves. */
  ghost predicate Closed(h: Heap, S: set<Ref>) {
    && S <= h.Keys
    && forall r :: r in S ==> Edges(h[r].body) <= S
  }

  /** An ephemeron key that does not keep the ephemeron from being read: an
      immediate, or an object of S. */
  predicate KeyLive(b: Body, S: set<Ref>)
    requires b.Ephemeron?
  {
    Target(b.key) <= S
  }

  /** The ephemeron rule: a live ephemeron with a live key keeps its value. */
  ghost predicate EphemeronClosed(h: Heap, carriers: set<Ref>, S: set<Ref>) {
    forall e :: e in carriers && IsEphemeron(h, e) && KeyLive(h[e].body, S) ==> Target(h[e].body.value) <= S
  }

  /** One collection's idea of live: the roots `seeds`, what the objects of
      `extra` refer to, strong edges, and the ephemeron rule for the ephemerons
      of S and of `extra`. */
  ghost predicate LiveClosed(h: Heap, seeds: set<Ref>, extra: set<Ref>, S: set<Ref>) {
    && seeds <= S
    && (forall r :: r in extra && r in h ==> Strong(h[r].body) <= S)
    && StrongClosed(h, S)
    && EphemeronClosed(h, S + extra, S)
  }

  /** L is the least set of live objects. */
  ghost predicate LeastLive(h: Heap, seeds: set<Ref>, extra: set<Ref>, L: set<Ref>) {
    && LiveClosed(h, seeds, extra, L)
    && forall T :: LiveClosed(h, seeds, extra, T) ==> L <= T
  }

  lemma LeastLiveIsUnique(h: Heap, seeds: set<Ref>, extra: set<Ref>, L1: set<Ref>, L2: set<Ref>)
    requires LeastLive(h, seeds, extra, L1) && LeastLive(h, seeds, extra, L2)
    ensures L1 == L2
  {
    assert L1 <= L2 && L2 <= L1;
  }

  // ---- reachability by paths -------------------------------------------

  ghost predicate IsPath(h: Heap, p: seq<Ref>) {
    && |p| > 0
    && (|p| > 1 ==>
          && IsPath(h, p[..|p| - 1])
          && p[|p| - 2] in h
          && p[|p| - 1] in Edges(h[p[|p| - 2]].body))
  }

  /** x can be read by the program starting at the addresses `seeds`. */
  ghost predicate Reachable(h: Heap, seeds: set<Ref>, x: Ref) {
    exists p :: IsPath(h, p) && p[0] in seeds && p[|p| - 1] == x
  }

  ghost predicate NoDangling(h: Heap, seeds: set<Ref>) {
    forall x :: Reachable(h, seeds, x) ==> x in h
  }

  lemma {:induction false} PathStaysIn(h: Heap, S: set<Ref>, p: seq<Ref>)
    requires Closed(h, S) && IsPath(h, p) && p[0] in S
    ensures p[|p| - 1] in S
    decreases |p|
  {
    if |p| > 1 {
      var q := p[..|p| - 1];
      PathStaysIn(h, S, q);
      assert q[|q| - 1] == p[|p| - 2];
    }
  }

  lemma ReachableStaysIn(h: Heap, seeds: set<Ref>, S: set<Ref>, x: Ref)
    requires Closed(h, S) && seeds <= S && Reachable(h, seeds, x)
    ensures x in S
  {
    var p :| IsPath(h, p) && p[0] in seeds && p[|p| - 1] == x;
    PathStaysIn(h, S, p);
  }

  lemma ReachableStep(h: Heap, seeds: set<Ref>, x: Ref, y: Ref)
    requires Reachable(h, seeds, x) && x in h && y in Edges(h[x].body)
    ensures Reachable(h, seeds, y)
  {
    var p :| IsPath(h, p) && p[0] in seeds && p[|p| - 1] == x;
    var q := p + [y];
    assert q[..|q| - 1] == p;
    assert IsPath(h, q) && q[0] in seeds && q[|q| - 1] == y;
  }

  /** No pointer the program can follow dangles exactly when the roots lie in a
      set of allocated objects that no edge leaves. */
  lemma NoDanglingIffClosed(h: Heap, seeds: set<Ref>)
    ensures NoDangling(h, seeds) <==> exists S :: Closed(h, S) && seeds <= S
  {
    if NoDangling(h, seeds) {
      var S := set x | x in h && Reachable(h, seeds, x);
      forall r, y | r in S && y in Edges(h[r].body)
        ensures y in S
      {
        ReachableStep(h, seeds, r, y);
      }
      forall r | r in seeds
        ensures r in S
      {
        assert IsPath(h, [r]);
        assert Reachable(h, seeds, r);
      }
      assert Closed(h, S) && seeds <= S;
    }
    if exists S :: Closed(h, S) && seeds <= S {
      var S :| Closed(h, S) && seeds <= S;
      forall x | Reachable(h, seeds, x)
        ensures x in h
      {
        ReachableStaysIn(h, seeds, S, x);
      }
    }
  }
}
