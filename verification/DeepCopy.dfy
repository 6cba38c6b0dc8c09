/** Copying a graph of objects between heaps: pairs are walked down their spine,
    everything else by recursion, through the table of visited objects. */
module DeepCopy {
  import opened DeepCopyTable
  import opened DeepCopySpec

  class Copier {
    var heap: Heap
    var symbols: map<string, Ref>
    var error: bool
    const dest: nat
    const hasVm: bool

    constructor (heap: Heap, symbols: map<string, Ref>, dest: nat, hasVm: bool)
      ensures this.heap == heap && this.symbols == symbols && this.dest == dest && this.hasVm == hasVm && !error
    {
      this.heap, this.symbols, this.dest, this.hasVm := heap, symbols, dest, hasVm;
      error := false;
    }

    ghost function Now(vis: Visited): Snap
      reads `heap, `symbols, vis
    {
      Snap(heap, vis.contents, symbols)
    }

    /** What a copy in progress may rely on. */
    ghost predicate Ready(t: Task, S: set<Ref>, vis: Visited)
      reads this, vis, vis.entries
    {
      Outer(t, S, vis) && Kept(t.source, heap)
    }

    ghost predicate Outer(t: Task, S: set<Ref>, vis: Visited)
      reads `error, vis, vis.entries
    {
      && t.dest == dest && t.hasVm == hasVm
      && Closed(t.source, S)
      && vis.Valid() && vis.contents.Keys <= S
      && !error
    }

    method Alloc(c: Content) returns (r: Ref)
      modifies `heap
      ensures r !in old(heap) && heap == old(heap)[r := Object(dest, c)]
    {
      SomeRefIsFree(heap.Keys);
      r :| r !in heap;
      heap := heap[r := Object(dest, c)];
    }

    method Reject() returns (v: Value)
      modifies `error
      ensures v == UNDEFINED && error == (old(error) || hasVm)
    {
      if hasVm {
        error := true;
      }
      v := UNDEFINED;
    }

    method InternSymbol(n: string) returns (v: Value)
      modifies `heap, `symbols
      ensures n in symbols && v == Ptr(symbols[n])
      ensures if n in old(symbols) then symbols == old(symbols) && heap == old(heap)
              else symbols[n] !in old(heap) && symbols == old(symbols)[n := symbols[n]]
                   && heap == old(heap)[symbols[n] := Object(dest, Symbol(n))]
    {
      if n !in symbols {
        var r := Alloc(Symbol(n));
        symbols := symbols[n := r];
      }
      v := Ptr(symbols[n]);
    }

    method CopyValue(ghost t: Task, ghost S: set<Ref>, v: Value, vis: Visited) returns (out: Value)
      requires Ready(t, S, vis) && Target(v) <= S
      modifies `heap, `symbols, `error, vis, vis.entries
      ensures vis.Valid() && vis.contents.Keys <= S && (vis.entries == old(vis.entries) || fresh(vis.entries))
      ensures Outcome(t, Target(v), old(Now(vis)), Now(vis), error)
      ensures if error then hasVm && out == UNDEFINED else Covered(t, Now(vis), v) && out == Image(t, Now(vis), v)
      decreases S - vis.contents.Keys, 1
    {
      if v.Imm? {
        NoProgress(t, Now(vis));
        return v;
      }
      var obj := v.ref;
      assert obj in t.source && heap[obj] == t.source[obj];
      var found, already := vis.Get(obj);
      if found {
        NoProgress(t, Now(vis));
        return already;
      }
      match heap[obj].content
      case Pair(_, _) =>
        out := CopyPair(t, S, obj, vis);
      case Slots(_, _, _) =>
        out := CopySlots(t, S, obj, vis);
      case Blob(_, _) =>
        ghost var a := Now(vis);
        var r := Alloc(heap[obj].content);
        vis.Put(obj, Ptr(r));
        FillingStart(t, obj, a, r, t.source[obj].content);
        FillingDone(t, obj, a, Now(vis), obj);
        out := Ptr(r);
      case Symbol(n) =>
        ghost var a := Now(vis);
        out := InternSymbol(n);
        if n in a.symbols {
          NoProgress(t, a);
        } else {
          ProgressIntern(t, a, n, symbols[n]);
        }
      case Unsupported(_) =>
        NoProgress(t, Now(vis));
        out := Reject();
    }

    // A child of the object being filled.
    method CopyChild(ghost t: Task, ghost S: set<Ref>, ghost src: Ref, ghost a: Snap, ghost cur: Ref, v: Value,
                     vis: Visited) returns (out: Value)
      requires Outer(t, S, vis) && Kept(t.source, a.heap) && Filling(t, src, a, Now(vis), cur)
      requires cur in S && Target(v) <= Edges(t.source[cur].content)
      modifies `heap, `symbols, `error, vis, vis.entries
      ensures vis.Valid() && vis.contents.Keys <= S && (vis.entries == old(vis.entries) || fresh(vis.entries))
      ensures error ==> hasVm && out == UNDEFINED && Outcome(t, {src}, a, Now(vis), true)
      ensures !error ==> old(vis.contents.Keys) <= vis.contents.Keys
      ensures !error && src in old(vis.contents) ==> src in vis.contents && vis.contents[src] == old(vis.contents)[src]
      ensures !error ==> Progress(t, old(Now(vis)), Now(vis), {}) && Filling(t, src, a, Now(vis), cur)
      ensures !error ==> Covered(t, Now(vis), v) && out == Image(t, Now(vis), v)
      ensures !error ==> old(cur in vis.contents) && cur in vis.contents && vis.contents[cur] == old(vis.contents[cur])
      ensures !error ==> vis.contents[cur].Ptr? && vis.contents[cur].ref in heap && old(vis.contents[cur].ref in heap)
                         && heap[vis.contents[cur].ref] == old(heap[vis.contents[cur].ref])
      decreases S - vis.contents.Keys, 2
    {
      hide Progress, Within, Done, Kept, Stores, Occupied, Closed, LeadsToUnsupported, Outcome, Filling;
      ghost var b := Now(vis);
      FillingReads(t, src, a, b, cur);
      ClosedAt(t.source, S, cur);
      out := CopyValue(t, S, v, vis);
      FillingChild(t, src, a, b, cur, v, Now(vis), error);
      if !error {
        OutcomeProgress(t, Target(v), b, Now(vis));
        ProgressGrows(t, b, Now(vis), {});
        FillingStarted(t, src, a, Now(vis), cur);
      }
    }

    method WriteField(ghost t: Task, ghost src: Ref, ghost a: Snap, ghost cur: Ref, dst: Ref, c: Content, vis: Visited)
      requires t.dest == dest && Filling(t, src, a, Now(vis), cur) && Copyable(c)
      requires cur in vis.contents && vis.contents[cur] == Ptr(dst)
      modifies `heap
      ensures dst in old(heap) && heap == old(heap)[dst := Object(dest, c)]
      ensures Filling(t, src, a, Now(vis), cur)
    {
      hide Filling;
      FillingPoke(t, src, a, Now(vis), cur, c);
      heap := heap[dst := Object(dest, c)];
    }

    // The last field of the pair being filled: its copy is complete.
    method SetCdr(ghost t: Task, ghost src: Ref, ghost a: Snap, ghost cur: Ref, dst: Ref, cdr: Value, vis: Visited)
      requires t.dest == dest && Filling(t, src, a, Now(vis), cur) && cur in t.source && t.source[cur].content.Pair?
      requires cur in vis.contents && vis.contents[cur] == Ptr(dst) && dst in heap && heap[dst].content.Pair?
      requires Covered(t, Now(vis), t.source[cur].content.car) && Covered(t, Now(vis), t.source[cur].content.cdr)
      requires heap[dst].content.car == Image(t, Now(vis), t.source[cur].content.car)
      requires cdr == Image(t, Now(vis), t.source[cur].content.cdr)
      modifies `heap
      ensures Outcome(t, {src}, a, Now(vis), false)
    {
      hide Filling, Outcome;
      WriteField(t, src, a, cur, dst, Pair(heap[dst].content.car, cdr), vis);
      FillingStarted(t, src, a, Now(vis), cur);
      FillingDone(t, src, a, Now(vis), cur);
    }

    // The pair being filled gets a new tail, which is filled next.
    method LinkNext(ghost t: Task, ghost S: set<Ref>, ghost src: Ref, ghost a: Snap, ghost cur: Ref, dst: Ref,
                    rest: Ref, vis: Visited) returns (next: Ref)
      requires Outer(t, S, vis) && Filling(t, src, a, Now(vis), cur) && cur in t.source && t.source[cur].content.Pair?
      requires cur in vis.contents && vis.contents[cur] == Ptr(dst) && dst in heap && heap[dst].content.Pair?
      requires t.source[cur].content.cdr == Ptr(rest) && rest in S && rest !in vis.contents && rest !in a.visited
      requires rest in t.source && t.source[rest].content.Pair?
      requires Covered(t, Now(vis), t.source[cur].content.car)
      requires heap[dst].content.car == Image(t, Now(vis), t.source[cur].content.car)
      modifies `heap, vis, vis.entries
      ensures Outer(t, S, vis) && (vis.entries == old(vis.entries) || fresh(vis.entries))
      ensures Filling(t, src, a, Now(vis), rest) && vis.contents == old(vis.contents)[rest := Ptr(next)]
      ensures next in heap && heap[next].content.Pair?
    {
      hide Filling, Stores, Occupied, Closed;
      ghost var b := Now(vis);
      var car := heap[dst].content.car;
      next := Alloc(Pair(NIL, NIL));
      vis.Put(rest, Ptr(next));
      heap := heap[dst := Object(dest, Pair(car, Ptr(next)))];
      FillingNext(t, src, a, b, cur, rest, next, car);
    }

    // The second field of the pair being filled.  When it is a pair not met yet
    // the walk goes on with it.
    method CopyCdr(ghost t: Task, ghost S: set<Ref>, ghost src: Ref, ghost a: Snap, cur: Ref, dst: Ref, vis: Visited)
      returns (more: bool, rest: Ref, next: Ref)
      requires Outer(t, S, vis) && Kept(t.source, a.heap) && Filling(t, src, a, Now(vis), cur)
      requires cur in S && cur in t.source && t.source[cur].content.Pair?
      requires cur in vis.contents && vis.contents[cur] == Ptr(dst) && dst in heap && heap[dst].content.Pair?
      requires Covered(t, Now(vis), t.source[cur].content.car)
      requires heap[dst].content.car == Image(t, Now(vis), t.source[cur].content.car)
      requires a.visited.Keys < vis.contents.Keys && src in vis.contents
      modifies `heap, `symbols, `error, vis, vis.entries
      ensures vis.Valid() && vis.contents.Keys <= S && (vis.entries == old(vis.entries) || fresh(vis.entries))
      ensures error ==> hasVm && !more && Outcome(t, {src}, a, Now(vis), true)
      ensures !error ==> src in vis.contents && vis.contents[src] == old(vis.contents[src])
      ensures !error && !more ==> Outcome(t, {src}, a, Now(vis), false)
      ensures more ==> !error && Outer(t, S, vis) && Filling(t, src, a, Now(vis), rest)
      ensures more ==> rest in S && rest !in old(vis.contents) && vis.contents == old(vis.contents)[rest := Ptr(next)]
      ensures more ==> rest in t.source && t.source[rest].content.Pair? && next in heap && heap[next].content.Pair?
      decreases S - vis.contents.Keys, 3
    {
      hide Progress, Within, Done, Kept, Stores, Occupied, Closed, LeadsToUnsupported, Outcome, Filling;
      FillingReads(t, src, a, Now(vis), cur);
      ClosedAt(t.source, S, cur);
      more, rest, next := false, 0, 0;
      var cdr := heap[cur].content.cdr;
      if cdr.Imm? {
        SetCdr(t, src, a, cur, dst, cdr, vis);
        return;
      }
      ClosedAt(t.source, S, cdr.ref);
      KeptAt(t.source, heap, cdr.ref);
      if !heap[cdr.ref].content.Pair? {
        ghost var b := Now(vis);
        var x := CopyChild(t, S, src, a, cur, cdr, vis);
        if x == UNDEFINED && hasVm && error {
          return;
        }
        ImageKept(t, b, Now(vis), t.source[cur].content.car);
        SetCdr(t, src, a, cur, dst, x, vis);
        return;
      }
      var found, already := vis.Get(cdr.ref);
      if found {
        SetCdr(t, src, a, cur, dst, already, vis);
        return;
      }
      more, rest := true, cdr.ref;
      next := LinkNext(t, S, src, a, cur, dst, rest, vis);
    }

    method CopyPair(ghost t: Task, ghost S: set<Ref>, src: Ref, vis: Visited) returns (out: Value)
      requires Ready(t, S, vis) && src in S && src !in vis.contents && t.source[src].content.Pair?
      modifies `heap, `symbols, `error, vis, vis.entries
      ensures vis.Valid() && vis.contents.Keys <= S && (vis.entries == old(vis.entries) || fresh(vis.entries))
      ensures Outcome(t, {src}, old(Now(vis)), Now(vis), error)
      ensures error ==> hasVm && out == UNDEFINED
      ensures !error ==> src in vis.contents && out == vis.contents[src]
      decreases S - vis.contents.Keys, 0
    {
      hide Progress, Within, Done, Kept, Stores, Occupied, Closed, LeadsToUnsupported, Outcome, Filling;
      ghost var a := Now(vis);
      ClosedAt(t.source, S, src);
      KeptAt(t.source, heap, src);
      var head := Alloc(Pair(NIL, NIL));
      vis.Put(src, Ptr(head));
      FillingStart(t, src, a, head, Pair(NIL, NIL));
      var cur, dst := src, head;
      out := Ptr(head);
      while true
        invariant Outer(t, S, vis) && (vis.entries == old(vis.entries) || fresh(vis.entries))
        invariant Filling(t, src, a, Now(vis), cur)
        invariant cur in S && cur in vis.contents && vis.contents[cur] == Ptr(dst)
        invariant cur in t.source && t.source[cur].content.Pair?
        invariant dst in heap && heap[dst].content.Pair?
        invariant src in vis.contents && out == vis.contents[src] && a.visited.Keys < vis.contents.Keys
        decreases S - vis.contents.Keys
      {
        FillingReads(t, src, a, Now(vis), cur);
        ghost var was := vis.contents.Keys;
        var car := CopyChild(t, S, src, a, cur, heap[cur].content.car, vis);
        if car == UNDEFINED && hasVm && error {
          return UNDEFINED;
        }
        WriteField(t, src, a, cur, dst, Pair(car, heap[dst].content.cdr), vis);
        var more, rest, next := CopyCdr(t, S, src, a, cur, dst, vis);
        if !more {
          return if error then UNDEFINED else out;
        }
        assert rest in S - was;
        cur, dst := rest, next;
      }
    }

    method CopySlots(ghost t: Task, ghost S: set<Ref>, src: Ref, vis: Visited) returns (out: Value)
      requires Ready(t, S, vis) && src in S && src !in vis.contents && t.source[src].content.Slots?
      modifies `heap, `symbols, `error, vis, vis.entries
      ensures vis.Valid() && vis.contents.Keys <= S && (vis.entries == old(vis.entries) || fresh(vis.entries))
      ensures Outcome(t, {src}, old(Now(vis)), Now(vis), error)
      ensures error ==> hasVm && out == UNDEFINED
      ensures !error ==> src in vis.contents && out == vis.contents[src]
      decreases S - vis.contents.Keys, 0
    {
      hide Progress, Within, Done, Kept, Stores, Occupied, Closed, LeadsToUnsupported, Outcome, Filling;
      ghost var a := Now(vis);
      ClosedAt(t.source, S, src);
      KeptAt(t.source, heap, src);
      var c := heap[src].content;
      var blank := c.(items := seq(|c.items|, _ => UNDEFINED));
      var dst := Alloc(blank);
      vis.Put(src, Ptr(dst));
      FillingStart(t, src, a, dst, blank);
      FillingStarted(t, src, a, Now(vis), src);
      out := Ptr(dst);
      hide SlotsFilled;
      for i := 0 to |c.items|
        invariant Outer(t, S, vis) && (vis.entries == old(vis.entries) || fresh(vis.entries))
        invariant Filling(t, src, a, Now(vis), src) && SlotsFilled(t, Now(vis), src, i)
        invariant src in vis.contents && vis.contents[src] == Ptr(dst) && a.visited.Keys < vis.contents.Keys
      {
        var x := CopyItem(t, S, src, a, i, dst, c.items[i], vis);
        if x == UNDEFINED && hasVm && error {
          return UNDEFINED;
        }
      }
      SlotsComplete(t, Now(vis), src);
      FillingDone(t, src, a, Now(vis), src);
    }

    method CopyItem(ghost t: Task, ghost S: set<Ref>, ghost src: Ref, ghost a: Snap, i: nat, dst: Ref, v: Value,
                    vis: Visited) returns (x: Value)
      requires Outer(t, S, vis) && Kept(t.source, a.heap) && Filling(t, src, a, Now(vis), src)
      requires SlotsFilled(t, Now(vis), src, i) && src in S && src in t.source
      requires t.source[src].content.Slots? && i < |t.source[src].content.items| && v == t.source[src].content.items[i]
      requires src in vis.contents && vis.contents[src] == Ptr(dst) && a.visited.Keys < vis.contents.Keys
      modifies `heap, `symbols, `error, vis, vis.entries
      ensures vis.Valid() && vis.contents.Keys <= S && (vis.entries == old(vis.entries) || fresh(vis.entries))
      ensures error ==> hasVm && x == UNDEFINED && Outcome(t, {src}, a, Now(vis), true)
      ensures !error ==> Filling(t, src, a, Now(vis), src) && SlotsFilled(t, Now(vis), src, i + 1)
      ensures !error ==> src in vis.contents && vis.contents[src] == Ptr(dst) && a.visited.Keys < vis.contents.Keys
      decreases S - vis.contents.Keys, 3
    {
      hide Progress, Within, Done, Kept, Stores, Occupied, Closed, LeadsToUnsupported, Outcome, Filling;
      ghost var b := Now(vis);
      assert v in t.source[src].content.items;
      x := CopyChild(t, S, src, a, src, v, vis);
      if x == UNDEFINED && hasVm && error {
        return;
      }
      SlotsFilledStable(t, b, Now(vis), src, i);
      SlotsFillNext(t, Now(vis), src, i, x);
      var filled := heap[dst].content;
      WriteField(t, src, a, src, dst, filled.(items := filled.items[i := x]), vis);
    }

    /** The whole copy, with a fresh table. */
    method DeepCopy(v: Value, ghost S: set<Ref>) returns (out: Value, vis: Visited)
      requires Closed(heap, S) && Target(v) <= S
      modifies this
      ensures var t := Task(old(heap), dest, hasVm);
              var s := Snap(heap, vis.contents, symbols);
              && Kept(old(heap), heap)
              && (forall r :: r in heap && r !in old(heap) ==> heap[r].owner == dest)
              && (error <==> hasVm && LeadsToUnsupported(old(heap), Target(v)))
              && (error ==> out == UNDEFINED)
              && (!error ==> Isomorphic(t, old(heap), v, s, out))
              && (!error && SymbolsOk(Snap(old(heap), map[], old(symbols)), dest) ==> SymbolsOk(s, dest))
      ensures fresh(vis)
    {
      hide Progress, Within, Done, Kept, Stores, Occupied, Closed, LeadsToUnsupported;
      error := false;
      vis := new Visited();
      ghost var t := Task(heap, dest, hasVm);
      ghost var a := Now(vis);
      KeptSelf(heap);
      out := CopyValue(t, S, v, vis);
      if !error {
        SuccessIsIsomorphic(t, v, a, Now(vis), out);
        OutcomeProgress(t, Target(v), a, Now(vis));
        if SymbolsOk(a, dest) {
          SymbolsStayOk(t, a, Now(vis));
        }
        if hasVm {
          SuccessMeansSupported(t, a.heap, v, Now(vis), out);
        }
      }
    }
  }

  lemma {:induction false} SomeRefIsFree(taken: set<Ref>)
    ensures exists r: Ref :: r !in taken
  {
    var bound := RefBound(taken);
    assert bound !in taken;
  }

  lemma {:induction false} RefBound(taken: set<Ref>) returns (bound: Ref)
    ensures forall r :: r in taken ==> r < bound
    decreases |taken|
  {
    if taken == {} {
      bound := 0;
    } else {
      var r :| r in taken;
      bound := RefBound(taken - {r});
      bound := if r < bound then bound else r + 1;
      assert taken == (taken - {r}) + {r};
    }
  }
}
