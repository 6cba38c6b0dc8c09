/** What it means for one part of a heap to be a copy of another. */
module DeepCopySpec {
  import opened DeepCopyTable

  const NIL := Imm(0)
  const UNDEFINED := Imm(5)

  datatype SlotsKind = VectorKind | FunctionKind

  datatype BlobKind = StringBlob | BytevectorBlob | UninternedSymbol

  /** A function is its constants plus a header of plain data (arity, registers,
      code, upvalue layout). */
  datatype Content =
    | Pair(car: Value, cdr: Value)
    | Slots(kind: SlotsKind, header: seq<nat>, items: seq<Value>)
    | Blob(blob: BlobKind, bytes: seq<nat>)
    | Symbol(name: string)
    | Unsupported(what: string)

  datatype Object = Object(owner: nat, content: Content)

  type Heap = map<Ref, Object>

  function Target(v: Value): set<Ref> {
    if v.Ptr? then {v.ref} else {}
  }

  function Edges(c: Content): set<Ref> {
    match c
    case Pair(a, d) => Target(a) + Target(d)
    case Slots(_, _, items) => set v | v in items && v.Ptr? :: v.ref
    case _ => {}
  }

  ghost predicate Closed(h: Heap, S: set<Ref>) {
    S <= h.Keys && forall r :: r in S ==> Edges(h[r].content) <= S
  }

  /** Every object of h is in h', unchanged. */
  ghost predicate Kept(h: Heap, h': Heap) {
    forall r :: r in h ==> r in h' && h'[r] == h[r]
  }

  // ---- images -----------------------------------------------------------

  /** What a copy works with: the heap it started from, the heap that receives
      the copies, and whether there is a VM to report errors to. */
  datatype Task = Task(source: Heap, dest: nat, hasVm: bool)

  /** How far it got: the heap, the visited table, the receiver's symbols. */
  datatype Snap = Snap(heap: Heap, visited: map<Ref, Value>, symbols: map<string, Ref>)

  /** v has an image: an immediate is its own, a symbol is interned by name, any
      other object is in the visited table.  Without a VM an object of an
      unsupported kind is replaced by the undefined value. */
  predicate Covered(t: Task, s: Snap, v: Value) {
    v.Ptr? ==>
      v.ref in s.visited ||
      (v.ref in t.source &&
       match t.source[v.ref].content
       case Symbol(n) => n in s.symbols
       case Unsupported(_) => !t.hasVm
       case _ => false)
  }

  function Image(t: Task, s: Snap, v: Value): Value
    requires Covered(t, s, v)
  {
    if v.Imm? then v
    else if v.ref in s.visited then s.visited[v.ref]
    else
      match t.source[v.ref].content
      case Symbol(n) => Ptr(s.symbols[n])
      case _ => UNDEFINED
  }

  ghost predicate Copyable(c: Content) {
    !c.Symbol? && !c.Unsupported?
  }

  ghost predicate ImageOf(t: Task, s: Snap, c: Content, c': Content) {
    match c
    case Pair(a, d) =>
      Covered(t, s, a) && Covered(t, s, d) && c' == Pair(Image(t, s, a), Image(t, s, d))
    case Slots(kind, header, items) =>
      && c'.Slots? && c'.kind == kind && c'.header == header && |c'.items| == |items|
      && forall i :: 0 <= i < |items| ==> Covered(t, s, items[i]) && c'.items[i] == Image(t, s, items[i])
    case Blob(_, _) => c' == c
    case _ => false
  }

  /** The copy of r is finished. */
  ghost predicate Done(t: Task, s: Snap, r: Ref) {
    && r in t.source && r in s.visited && s.visited[r].Ptr? && s.visited[r].ref in s.heap
    && s.heap[s.visited[r].ref].owner == t.dest
    && ImageOf(t, s, t.source[r].content, s.heap[s.visited[r].ref].content)
  }

  /** The copy of r exists but its fields are still being filled. */
  ghost predicate Started(t: Task, s: Snap, r: Ref) {
    && r in t.source && r in s.visited && s.visited[r].Ptr? && s.visited[r].ref in s.heap
    && s.heap[s.visited[r].ref].owner == t.dest && Copyable(s.heap[s.visited[r].ref].content)
  }

  // ---- progress ---------------------------------------------------------

  /** From a to b: old objects and old table entries are untouched, everything
      newly visited has its own new object, owned by the receiver, and is
      finished unless it is one of the `open` ones. */
  ghost predicate Progress(t: Task, a: Snap, b: Snap, open: set<Ref>) {
    && Kept(a.heap, b.heap)
    && (forall r :: r in b.heap && r !in a.heap ==> b.heap[r].owner == t.dest)
    && (forall r :: r in a.visited ==> r in b.visited && b.visited[r] == a.visited[r])
    && (forall n :: n in a.symbols ==> n in b.symbols && b.symbols[n] == a.symbols[n])
    && (forall n :: n in b.symbols && n !in a.symbols ==>
          && b.symbols[n] in b.heap && b.symbols[n] !in a.heap && b.heap[b.symbols[n]] == Object(t.dest, Symbol(n)))
    && (forall r :: r in open ==> r in b.visited && r !in a.visited)
    && (forall r :: r in b.visited && r !in a.visited ==> Started(t, b, r) && b.visited[r].ref !in a.heap)
    && (forall r :: r in b.visited && r !in a.visited && r !in open ==> Done(t, b, r))
    && (forall r, q :: r in b.visited && r !in a.visited && q in b.visited && q !in a.visited && r != q ==>
          b.visited[r] != b.visited[q])
  }

  /** More entries and more symbols change no image. */
  lemma ImageStable(t: Task, b: Snap, c: Snap, v: Value)
    requires Covered(t, b, v)
    requires forall r :: r in b.visited ==> r in c.visited && c.visited[r] == b.visited[r]
    requires forall n :: n in b.symbols ==> n in c.symbols && c.symbols[n] == b.symbols[n]
    requires forall r :: r in c.visited && r !in b.visited ==> r in t.source && !t.source[r].content.Symbol? && !t.source[r].content.Unsupported?
    ensures Covered(t, c, v) && Image(t, c, v) == Image(t, b, v)
  {
  }

  lemma DoneIsCopyable(t: Task, s: Snap, r: Ref)
    requires Done(t, s, r)
    ensures Copyable(t.source[r].content)
  {
  }

  lemma DoneStable(t: Task, b: Snap, c: Snap, r: Ref)
    requires Done(t, b, r)
    requires forall q :: q in b.visited ==> q in c.visited && c.visited[q] == b.visited[q]
    requires forall n :: n in b.symbols ==> n in c.symbols && c.symbols[n] == b.symbols[n]
    requires forall q :: q in c.visited && q !in b.visited ==> q in t.source && Copyable(t.source[q].content)
    requires b.visited[r].ref in c.heap && c.heap[b.visited[r].ref] == b.heap[b.visited[r].ref]
    ensures Done(t, c, r)
  {
    match t.source[r].content
    case Pair(x, y) =>
      ImageStable(t, b, c, x);
      ImageStable(t, b, c, y);
    case Slots(_, _, items) =>
      forall i | 0 <= i < |items|
        ensures Covered(t, c, items[i]) && Image(t, c, items[i]) == Image(t, b, items[i])
      {
        ImageStable(t, b, c, items[i]);
      }
    case Blob(_, _) =>
  }

  lemma NoProgress(t: Task, a: Snap)
    ensures Progress(t, a, a, {})
  {
  }

  lemma DonesStay(t: Task, a: Snap, b: Snap, c: Snap, open: set<Ref>)
    requires Progress(t, a, b, open) && Progress(t, b, c, {})
    ensures forall r :: r in b.visited && r !in a.visited && r !in open ==> Done(t, c, r)
  {
    hide Done, ImageOf;
    forall r | r in b.visited && r !in a.visited && r !in open
      ensures Done(t, c, r)
    {
      forall q | q in c.visited && q !in b.visited
        ensures q in t.source && Copyable(t.source[q].content)
      {
        DoneIsCopyable(t, c, q);
      }
      DoneStable(t, b, c, r);
    }
  }

  lemma ProgressTrans(t: Task, a: Snap, b: Snap, c: Snap, open: set<Ref>)
    requires Progress(t, a, b, open) && Progress(t, b, c, {})
    ensures Progress(t, a, c, open)
  {
    hide Done, ImageOf, Copyable;
    DonesStay(t, a, b, c, open);
    ImagesStayDistinct(t, a, b, c, open);
  }

  lemma ImagesStayDistinct(t: Task, a: Snap, b: Snap, c: Snap, open: set<Ref>)
    requires Progress(t, a, b, open) && Progress(t, b, c, {})
    ensures forall r, q :: r in c.visited && r !in a.visited && q in c.visited && q !in a.visited && r != q ==>
              c.visited[r] != c.visited[q]
  {
    hide Done, ImageOf;
    forall r, q | r in c.visited && r !in a.visited && q in c.visited && q !in a.visited && r != q
      ensures c.visited[r] != c.visited[q]
    {
      if r in b.visited && q !in b.visited {
        assert c.visited[r].ref in b.heap;
      } else if r !in b.visited && q in b.visited {
        assert c.visited[q].ref in b.heap;
      }
    }
  }

  /** A new object for r. */
  lemma ProgressAlloc(t: Task, a: Snap, b: Snap, open: set<Ref>, r: Ref, at: Ref, c: Content)
    requires Progress(t, a, b, open) && at !in b.heap && r !in b.visited && r !in a.visited
    requires r in t.source && Copyable(t.source[r].content) && Copyable(c)
    ensures Progress(t, a, Snap(b.heap[at := Object(t.dest, c)], b.visited[r := Ptr(at)], b.symbols), open + {r})
  {
    hide Done, ImageOf;
    var s := Snap(b.heap[at := Object(t.dest, c)], b.visited[r := Ptr(at)], b.symbols);
    forall q | q in b.visited && q !in a.visited && q !in open
      ensures Done(t, s, q)
    {
      assert Done(t, b, q) && Started(t, b, q);
      DoneStable(t, b, s, q);
    }
  }

  /** Filling a field of an open object. */
  lemma ProgressPoke(t: Task, a: Snap, b: Snap, open: set<Ref>, r: Ref, c: Content)
    requires Progress(t, a, b, open) && r in open && Copyable(c)
    ensures Started(t, b, r)
    ensures Progress(t, a, b.(heap := b.heap[b.visited[r].ref := Object(t.dest, c)]), open)
  {
    hide Done, ImageOf;
    assert Started(t, b, r);
    var s := b.(heap := b.heap[b.visited[r].ref := Object(t.dest, c)]);
    PokeKeepsHeap(t, a, b, open, r, c);
    hide Kept, Started;
    forall q | q in b.visited && q !in a.visited && q !in open
      ensures Done(t, s, q)
    {
      assert Done(t, b, q) && Started(t, b, q) && b.visited[q] != b.visited[r];
      DoneStable(t, b, s, q);
    }
  }

  lemma PokeKeepsHeap(t: Task, a: Snap, b: Snap, open: set<Ref>, r: Ref, c: Content)
    requires Progress(t, a, b, open) && r in open && Copyable(c)
    ensures Started(t, b, r)
    ensures var s := b.(heap := b.heap[b.visited[r].ref := Object(t.dest, c)]);
            && Kept(a.heap, s.heap)
            && (forall x :: x in s.heap && x !in a.heap ==> s.heap[x].owner == t.dest)
            && (forall n :: n in s.symbols && n !in a.symbols ==>
                  && s.symbols[n] in s.heap && s.symbols[n] !in a.heap && s.heap[s.symbols[n]] == Object(t.dest, Symbol(n)))
            && (forall q :: q in s.visited && q !in a.visited ==> Started(t, s, q))
  {
    hide Done, ImageOf;
    assert Started(t, b, r);
  }

  lemma ProgressClose(t: Task, a: Snap, b: Snap, open: set<Ref>, r: Ref)
    requires Progress(t, a, b, open) && r in open && Done(t, b, r)
    ensures Progress(t, a, b, open - {r})
  {
    hide ImageOf;
  }

  // ---- what was visited, and who is to blame ----------------------------

  /** Only objects the seeds lead to were visited. */
  ghost predicate Within(t: Task, seeds: set<Ref>, a: Snap, b: Snap) {
    forall T :: Closed(t.source, T) && seeds <= T ==> b.visited.Keys <= a.visited.Keys + T
  }

  /** The seeds lead to an object of an unsupported kind. */
  ghost predicate LeadsToUnsupported(h: Heap, seeds: set<Ref>) {
    forall T :: Closed(h, T) && seeds <= T ==> exists r :: r in T && h[r].content.Unsupported?
  }

  lemma WithinTrans(t: Task, seeds: set<Ref>, more: set<Ref>, a: Snap, b: Snap, c: Snap)
    requires Within(t, seeds, a, b) && Within(t, more, b, c)
    requires forall T :: Closed(t.source, T) && seeds <= T ==> more <= T
    ensures Within(t, seeds, a, c)
  {
  }

  lemma ProgressIntern(t: Task, a: Snap, n: string, at: Ref)
    requires at !in a.heap && n !in a.symbols
    ensures Progress(t, a, Snap(a.heap[at := Object(t.dest, Symbol(n))], a.visited, a.symbols[n := at]), {})
  {
  }

  /** What copying everything the seeds lead to may have done, success or not. */
  ghost predicate Outcome(t: Task, seeds: set<Ref>, a: Snap, b: Snap, failed: bool) {
    && Kept(a.heap, b.heap)
    && (forall r :: r in b.heap && r !in a.heap ==> b.heap[r].owner == t.dest)
    && (failed ==> t.hasVm && LeadsToUnsupported(t.source, seeds))
    && (!failed ==> Progress(t, a, b, {}) && Within(t, seeds, a, b))
  }

  /** The state in the middle of copying from r: what was visited since a is
      finished except the object being filled, and r leads to that object. */
  ghost predicate Filling(t: Task, r: Ref, a: Snap, b: Snap, cur: Ref) {
    && Progress(t, a, b, {cur})
    && Within(t, {r}, a, b)
    && (forall T :: Closed(t.source, T) && r in T ==> cur in T)
  }

  lemma FillingStart(t: Task, r: Ref, a: Snap, at: Ref, c: Content)
    requires r in t.source && Copyable(t.source[r].content) && Copyable(c) && r !in a.visited && at !in a.heap
    ensures Filling(t, r, a, Snap(a.heap[at := Object(t.dest, c)], a.visited[r := Ptr(at)], a.symbols), r)
  {
    NoProgress(t, a);
    ProgressAlloc(t, a, a, {}, r, at, c);
    assert {} + {r} == {r};
  }

  /** A child of the object being filled was copied. */
  lemma FillingChild(t: Task, r: Ref, a: Snap, b: Snap, cur: Ref, v: Value, c: Snap, failed: bool)
    requires Filling(t, r, a, b, cur) && cur in t.source && Target(v) <= Edges(t.source[cur].content)
    requires Outcome(t, Target(v), b, c, failed)
    ensures failed ==> Outcome(t, {r}, a, c, true)
    ensures !failed ==> Filling(t, r, a, c, cur) && c.visited[cur] == b.visited[cur] && c.visited[cur].Ptr?
                        && c.heap[c.visited[cur].ref] == b.heap[b.visited[cur].ref]
  {
    hide Done, ImageOf;
    assert Started(t, b, cur);
    forall T | Closed(t.source, T) && {r} <= T
      ensures Target(v) <= T
    {
      assert cur in T;
      assert Edges(t.source[cur].content) <= T;
    }
    if failed {
      forall T | Closed(t.source, T) && {r} <= T
        ensures exists q :: q in T && t.source[q].content.Unsupported?
      {
        assert Target(v) <= T;
      }
    } else {
      ProgressTrans(t, a, b, c, {cur});
      WithinTrans(t, {r}, Target(v), a, b, c);
    }
  }

  /** A field of the object being filled was written. */
  lemma FillingPoke(t: Task, r: Ref, a: Snap, b: Snap, cur: Ref, c: Content)
    requires Filling(t, r, a, b, cur) && Copyable(c)
    ensures Started(t, b, cur)
    ensures Filling(t, r, a, b.(heap := b.heap[b.visited[cur].ref := Object(t.dest, c)]), cur)
  {
    ProgressPoke(t, a, b, {cur}, cur, c);
  }

  /** The object being filled is complete. */
  lemma FillingDone(t: Task, r: Ref, a: Snap, b: Snap, cur: Ref)
    requires Filling(t, r, a, b, cur) && cur in t.source && Started(t, b, cur)
    requires ImageOf(t, b, t.source[cur].content, b.heap[b.visited[cur].ref].content)
    ensures Outcome(t, {r}, a, b, false)
  {
    ProgressClose(t, a, b, {cur}, cur);
    assert {cur} - {cur} == {};
  }

  /** The spine of a list goes on: the next pair gets its object, and with it the
      pair being filled is complete. */
  lemma FillingNext(t: Task, r: Ref, a: Snap, b: Snap, cur: Ref, next: Ref, at: Ref, x: Value)
    requires Filling(t, r, a, b, cur) && cur in t.source && t.source[cur].content.Pair?
    requires t.source[cur].content.cdr == Ptr(next) && next in t.source && Copyable(t.source[next].content)
    requires next !in b.visited && next !in a.visited && at !in b.heap
    requires Covered(t, b, t.source[cur].content.car) && x == Image(t, b, t.source[cur].content.car)
    ensures Started(t, b, cur)
    ensures var mid := Snap(b.heap[at := Object(t.dest, Pair(NIL, NIL))], b.visited[next := Ptr(at)], b.symbols);
            Filling(t, r, a, mid.(heap := mid.heap[b.visited[cur].ref := Object(t.dest, Pair(x, Ptr(at)))]), next)
  {
    hide Done, ImageOf;
    assert Started(t, b, cur);
    var mid := Snap(b.heap[at := Object(t.dest, Pair(NIL, NIL))], b.visited[next := Ptr(at)], b.symbols);
    ProgressAlloc(t, a, b, {cur}, next, at, Pair(NIL, NIL));
    ProgressPoke(t, a, mid, {cur} + {next}, cur, Pair(x, Ptr(at)));
    var s := mid.(heap := mid.heap[b.visited[cur].ref := Object(t.dest, Pair(x, Ptr(at)))]);
    ImageStable(t, b, s, t.source[cur].content.car);
    PairDone(t, s, cur);
    ProgressClose(t, a, s, {cur} + {next}, cur);
    assert {cur} + {next} - {cur} == {next};
    forall T | Closed(t.source, T) && r in T
      ensures next in T
    {
      assert cur in T;
      assert Edges(t.source[cur].content) <= T;
    }
  }

  lemma PairDone(t: Task, s: Snap, r: Ref)
    requires Started(t, s, r) && t.source[r].content.Pair?
    requires Covered(t, s, t.source[r].content.car) && Covered(t, s, t.source[r].content.cdr)
    requires s.heap[s.visited[r].ref].content
          == Pair(Image(t, s, t.source[r].content.car), Image(t, s, t.source[r].content.cdr))
    ensures Done(t, s, r)
  {
  }

  /** The first n items of the copy of r are filled in. */
  ghost predicate SlotsFilled(t: Task, s: Snap, r: Ref, n: nat) {
    && Started(t, s, r) && t.source[r].content.Slots?
    && var c, c' := t.source[r].content, s.heap[s.visited[r].ref].content;
       && c'.Slots? && c'.kind == c.kind && c'.header == c.header && |c'.items| == |c.items| && n <= |c.items|
       && forall i :: 0 <= i < n ==> Covered(t, s, c.items[i]) && c'.items[i] == Image(t, s, c.items[i])
  }

  lemma SlotsFilledStable(t: Task, b: Snap, c: Snap, r: Ref, n: nat)
    requires SlotsFilled(t, b, r, n) && Progress(t, b, c, {})
    ensures SlotsFilled(t, c, r, n)
  {
    var items := t.source[r].content.items;
    forall q | q in c.visited && q !in b.visited
      ensures q in t.source && Copyable(t.source[q].content)
    {
      DoneIsCopyable(t, c, q);
    }
    hide Done;
    forall i | 0 <= i < n
      ensures Covered(t, c, items[i]) && Image(t, c, items[i]) == Image(t, b, items[i])
    {
      ImageStable(t, b, c, items[i]);
    }
  }

  lemma SlotsFillNext(t: Task, s: Snap, r: Ref, n: nat, x: Value)
    requires SlotsFilled(t, s, r, n) && n < |t.source[r].content.items|
    requires Covered(t, s, t.source[r].content.items[n]) && x == Image(t, s, t.source[r].content.items[n])
    ensures var c := s.heap[s.visited[r].ref].content;
            SlotsFilled(t, s.(heap := s.heap[s.visited[r].ref := Object(t.dest, c.(items := c.items[n := x]))]), r, n + 1)
  {
    var c := s.heap[s.visited[r].ref].content;
    var u := s.(heap := s.heap[s.visited[r].ref := Object(t.dest, c.(items := c.items[n := x]))]);
    forall i | 0 <= i < n + 1
      ensures Covered(t, u, t.source[r].content.items[i])
      ensures Image(t, u, t.source[r].content.items[i]) == Image(t, s, t.source[r].content.items[i])
    {
    }
  }

  lemma OutcomeProgress(t: Task, seeds: set<Ref>, a: Snap, b: Snap)
    requires Outcome(t, seeds, a, b, false)
    ensures Progress(t, a, b, {})
  {
  }

  /** While copying, the source can still be read where it was. */
  lemma FillingReads(t: Task, r: Ref, a: Snap, b: Snap, cur: Ref)
    requires Filling(t, r, a, b, cur) && Kept(t.source, a.heap)
    ensures Kept(t.source, b.heap) && Started(t, b, cur) && cur in b.heap && b.heap[cur] == t.source[cur]
  {
  }

  lemma KeptAt(h: Heap, h': Heap, r: Ref)
    requires Kept(h, h') && r in h
    ensures r in h' && h'[r] == h[r]
  {
  }

  lemma ClosedAt(h: Heap, S: set<Ref>, r: Ref)
    requires Closed(h, S) && r in S
    ensures r in h && Edges(h[r].content) <= S
  {
  }

  /** A covered value stays covered, with the same image. */
  lemma ImageKept(t: Task, b: Snap, c: Snap, v: Value)
    requires Progress(t, b, c, {}) && Covered(t, b, v)
    ensures Covered(t, c, v) && Image(t, c, v) == Image(t, b, v)
  {
    forall q | q in c.visited && q !in b.visited
      ensures q in t.source && Copyable(t.source[q].content)
    {
      DoneIsCopyable(t, c, q);
    }
    hide Done;
    ImageStable(t, b, c, v);
  }

  lemma ProgressGrows(t: Task, a: Snap, b: Snap, open: set<Ref>)
    requires Progress(t, a, b, open)
    ensures a.visited.Keys <= b.visited.Keys && forall r :: r in a.visited ==> b.visited[r] == a.visited[r]
  {
  }

  lemma FillingStarted(t: Task, r: Ref, a: Snap, b: Snap, cur: Ref)
    requires Filling(t, r, a, b, cur)
    ensures Started(t, b, cur)
  {
  }

  lemma KeptSelf(h: Heap)
    ensures Kept(h, h)
  {
  }

  lemma SlotsComplete(t: Task, s: Snap, r: Ref)
    requires r in t.source && t.source[r].content.Slots? && SlotsFilled(t, s, r, |t.source[r].content.items|)
    ensures Started(t, s, r) && ImageOf(t, s, t.source[r].content, s.heap[s.visited[r].ref].content)
  {
  }

  // ---- the finished copy ------------------------------------------------

  /** The table is an isomorphism: its domain is what v leads to (interned
      symbols aside), it is injective, every copy is a new object of the
      receiver that mirrors its original field by field, and out is v's image. */
  ghost predicate Isomorphic(t: Task, before: Heap, v: Value, s: Snap, out: Value) {
    && Covered(t, s, v) && out == Image(t, s, v)
    && (forall r :: r in s.visited ==> Done(t, s, r) && s.visited[r].ref !in before)
    && (forall r, q :: r in s.visited && q in s.visited && r != q ==> s.visited[r] != s.visited[q])
    && (forall T :: Closed(t.source, T) && Target(v) <= T ==> s.visited.Keys <= T)
  }

  lemma SuccessIsIsomorphic(t: Task, v: Value, a: Snap, b: Snap, out: Value)
    requires a.visited == map[] && Outcome(t, Target(v), a, b, false)
    requires Covered(t, b, v) && out == Image(t, b, v)
    ensures Isomorphic(t, a.heap, v, b, out)
  {
    forall T | Closed(t.source, T) && Target(v) <= T
      ensures b.visited.Keys <= T
    {
      assert b.visited.Keys <= a.visited.Keys + T;
    }
  }

  // ---- what an isomorphism means to a reader ----------------------------

  /** Field n of an object: the car and cdr of a pair, the items of a vector or
      function. */
  function Field(c: Content, n: nat): (v: Value)
  {
    match c
    case Pair(a, d) => if n == 0 then a else if n == 1 then d else UNDEFINED
    case Slots(_, _, items) => if n < |items| then items[n] else UNDEFINED
    case _ => UNDEFINED
  }

  /** What is read by following a path of field numbers. */
  function Follow(h: Heap, v: Value, path: seq<nat>): Value {
    if path == [] then v
    else
      var w := Follow(h, v, path[..|path| - 1]);
      if w.Ptr? && w.ref in h then Field(h[w.ref].content, path[|path| - 1]) else UNDEFINED
  }

  /** The receiver's symbol table is sound. */
  ghost predicate SymbolsOk(s: Snap, dest: nat) {
    forall n :: n in s.symbols ==> s.symbols[n] in s.heap && s.heap[s.symbols[n]] == Object(dest, Symbol(n))
  }

  lemma SymbolsStayOk(t: Task, a: Snap, b: Snap)
    requires Progress(t, a, b, {}) && SymbolsOk(a, t.dest)
    ensures SymbolsOk(b, t.dest)
  {
  }

  lemma FieldOfImage(t: Task, s: Snap, w: Value, n: nat)
    requires Covered(t, s, w) && SymbolsOk(s, t.dest) && (forall r :: r in s.visited ==> Done(t, s, r))
    requires w.Ptr? && w.ref in t.source
    ensures var u := Field(t.source[w.ref].content, n);
            var w' := Image(t, s, w);
            Covered(t, s, u)
            && Image(t, s, u) == if w'.Ptr? && w'.ref in s.heap then Field(s.heap[w'.ref].content, n) else UNDEFINED
  {
    if w.ref in s.visited {
      assert Done(t, s, w.ref);
    }
  }

  /** Reading the copy along any path gives the image of what the original gives
      along the same path. */
  lemma {:induction false} CopyReadsAlike(t: Task, before: Heap, v: Value, s: Snap, out: Value, path: seq<nat>)
    requires Isomorphic(t, before, v, s, out) && SymbolsOk(s, t.dest)
    ensures Covered(t, s, Follow(t.source, v, path))
    ensures Follow(s.heap, out, path) == Image(t, s, Follow(t.source, v, path))
  {
    hide Done;
    if path != [] {
      var q := path[..|path| - 1];
      CopyReadsAlike(t, before, v, s, out, q);
      var w := Follow(t.source, v, q);
      if w.Ptr? && w.ref in t.source {
        FieldOfImage(t, s, w, path[|path| - 1]);
      } else if w.Ptr? {
        assert Done(t, s, w.ref);
        DoneInSource(t, s, w.ref);
      }
    }
  }

  lemma DoneInSource(t: Task, s: Snap, r: Ref)
    requires Done(t, s, r)
    ensures r in t.source
  {
  }

  /** Symbols of one name, which is what the receiver interns. */
  ghost predicate OneName(h: Heap, w: Value, u: Value) {
    && w.Ptr? && u.Ptr? && w.ref in h && u.ref in h
    && h[w.ref].content.Symbol? && h[u.ref].content == h[w.ref].content
  }

  /** The undefined value, or an object that is replaced by it. */
  ghost predicate Nothing(h: Heap, v: Value) {
    v == UNDEFINED || (v.Ptr? && v.ref in h && h[v.ref].content.Unsupported?)
  }

  lemma ImagesMeet(t: Task, before: Heap, v: Value, s: Snap, out: Value, w: Value, u: Value)
    requires Isomorphic(t, before, v, s, out) && SymbolsOk(s, t.dest) && Covered(t, s, w) && Covered(t, s, u)
    ensures Image(t, s, w) == Image(t, s, u) <==>
            w == u || OneName(t.source, w, u) || (Nothing(t.source, w) && Nothing(t.source, u))
  {
    ImageIs(t, s, w);
    ImageIs(t, s, u);
    hide Done, SymbolsOk, Covered, Image;
  }

  // What the image of a value is, by its kind.
  lemma ImageIs(t: Task, s: Snap, w: Value)
    requires Covered(t, s, w) && SymbolsOk(s, t.dest) && forall r :: r in s.visited ==> Done(t, s, r)
    ensures w.Imm? ==> Image(t, s, w) == w
    ensures w.Ptr? ==> w.ref in t.source
    ensures w.Ptr? && w.ref in s.visited ==>
              && Image(t, s, w) == s.visited[w.ref] && Image(t, s, w).Ptr? && Image(t, s, w).ref in s.heap
              && !s.heap[Image(t, s, w).ref].content.Symbol? && Copyable(t.source[w.ref].content)
    ensures w.Ptr? && w.ref !in s.visited && t.source[w.ref].content.Symbol? ==>
              && Image(t, s, w).Ptr? && Image(t, s, w).ref in s.heap
              && s.heap[Image(t, s, w).ref].content == t.source[w.ref].content
              && Image(t, s, w) == Ptr(s.symbols[t.source[w.ref].content.name])
    ensures w.Ptr? && w.ref !in s.visited && !t.source[w.ref].content.Symbol? ==>
              t.source[w.ref].content.Unsupported? && Image(t, s, w) == UNDEFINED
  {
    if w.Ptr? && w.ref in s.visited {
      assert Done(t, s, w.ref);
    }
  }

  /** Sharing and cycles are kept: two paths meet in the copy exactly when they meet
      in the original, or lead to symbols of one name, or to nothing. */
  lemma CopyKeepsSharing(t: Task, before: Heap, v: Value, s: Snap, out: Value, p: seq<nat>, q: seq<nat>)
    requires Isomorphic(t, before, v, s, out) && SymbolsOk(s, t.dest)
    ensures var w, u := Follow(t.source, v, p), Follow(t.source, v, q);
            Follow(s.heap, out, p) == Follow(s.heap, out, q) <==>
            w == u || OneName(t.source, w, u) || (Nothing(t.source, w) && Nothing(t.source, u))
  {
    CopyReadsAlike(t, before, v, s, out, p);
    CopyReadsAlike(t, before, v, s, out, q);
    ImagesMeet(t, before, v, s, out, Follow(t.source, v, p), Follow(t.source, v, q));
  }

  /** No pointer of the copy leads out of the receiving heap: the copies and the
      receiver's symbols form a set of its objects that no field leaves. */
  lemma CopyStaysInReceiver(t: Task, before: Heap, v: Value, s: Snap, out: Value) returns (D: set<Ref>)
    requires Isomorphic(t, before, v, s, out) && SymbolsOk(s, t.dest)
    ensures Closed(s.heap, D) && Target(out) <= D
    ensures forall r :: r in D ==> s.heap[r].owner == t.dest
    ensures forall r :: r in D && r in before ==> s.heap[r].content.Symbol?
  {
    var copies := set r | r in s.visited :: s.visited[r].ref;
    var names := set n | n in s.symbols :: s.symbols[n];
    D := copies + names;
    ImageInReceiver(t, s, v, D);
    forall d | d in D
      ensures d in s.heap && s.heap[d].owner == t.dest && Edges(s.heap[d].content) <= D
      ensures d in before ==> s.heap[d].content.Symbol?
    {
      if d in names {
      } else {
        var r :| r in s.visited && s.visited[r].ref == d;
        CopyEdgesInReceiver(t, s, r, D);
      }
    }
  }

  lemma ImageInReceiver(t: Task, s: Snap, v: Value, D: set<Ref>)
    requires Covered(t, s, v)
    requires forall r :: r in s.visited ==> s.visited[r].Ptr? && s.visited[r].ref in D
    requires forall n :: n in s.symbols ==> s.symbols[n] in D
    ensures Target(Image(t, s, v)) <= D
  {
  }

  lemma CopyEdgesInReceiver(t: Task, s: Snap, r: Ref, D: set<Ref>)
    requires Done(t, s, r)
    requires forall q :: q in s.visited ==> s.visited[q].Ptr? && s.visited[q].ref in D
    requires forall n :: n in s.symbols ==> s.symbols[n] in D
    ensures s.visited[r].ref in s.heap && s.heap[s.visited[r].ref].owner == t.dest
    ensures Edges(s.heap[s.visited[r].ref].content) <= D
  {
    match t.source[r].content
    case Pair(a, d) =>
      ImageInReceiver(t, s, a, D);
      ImageInReceiver(t, s, d, D);
    case Slots(_, _, items) =>
      var c := s.heap[s.visited[r].ref].content;
      forall x | x in c.items && x.Ptr?
        ensures x.ref in D
      {
        var i :| 0 <= i < |c.items| && c.items[i] == x;
        ImageInReceiver(t, s, items[i], D);
      }
    case Blob(_, _) =>
  }

  /** With a VM to report to, a successful copy met nothing unsupported. */
  lemma SuccessMeansSupported(t: Task, before: Heap, v: Value, s: Snap, out: Value)
    requires Isomorphic(t, before, v, s, out) && t.hasVm
    ensures !LeadsToUnsupported(t.source, Target(v))
  {
    var T := set r | r in t.source && (r in s.visited || (t.source[r].content.Symbol? && t.source[r].content.name in s.symbols));
    forall r | r in T
      ensures Edges(t.source[r].content) <= T && !t.source[r].content.Unsupported?
    {
      if r in s.visited {
        ChildrenCovered(t, s, r, T);
      }
    }
    assert Closed(t.source, T);
    assert Target(v) <= T by {
      if v.Ptr? && v.ref in s.visited { assert Done(t, s, v.ref); }
    }
  }

  lemma ChildrenCovered(t: Task, s: Snap, r: Ref, T: set<Ref>)
    requires Done(t, s, r) && t.hasVm && (forall q :: q in s.visited ==> q in t.source)
    requires T == set q | q in t.source && (q in s.visited || (t.source[q].content.Symbol? && t.source[q].content.name in s.symbols))
    ensures Edges(t.source[r].content) <= T && !t.source[r].content.Unsupported?
  {
    if t.source[r].content.Slots? {
      var items := t.source[r].content.items;
      forall x | x in items && x.Ptr?
        ensures x.ref in T
      {
        var i :| 0 <= i < |items| && items[i] == x;
        assert Covered(t, s, items[i]);
      }
    }
  }
}
