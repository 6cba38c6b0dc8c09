/** The hash table itself: three parallel buffers, linear probing, deletion
    marks that later insertions reuse, and doubling before it is three
    quarters full. */
module Hashtables {
  import opened Probing
  import opened HashtableSpec

  const MIN_CAP := 8
  const LOAD_NUM := 3
  const LOAD_DEN := 4
  const SIZE_MAX := 0xFFFF_FFFF_FFFF_FFFF

  datatype Status = OK | NotFound | OutOfMemory

  ghost function SlotAt(key: Word, val: Word, used: bool): Slots {
    if !used then Free else if key == UNDEFINED then Deleted else Full(key, val)
  }

  class Hashtable {
    const h: Hashing
    var keys: array<Word>
    var vals: array<Word>
    var used: array<bool>
    var cap: nat
    var count: nat
    ghost var contents: Contents
    ghost var slots: seq<Slots>
    // How often UNDEFINED was stored as a key since the last rehash: counted, never found.
    ghost var lost: nat

    /** The slots are what the three buffers say. */
    ghost predicate Shaped()
      reads this, keys, vals, used
    {
      && cap == |slots| == keys.Length == vals.Length == used.Length
      && keys != vals
      && forall i :: 0 <= i < cap ==> slots[i] == SlotAt(keys[i], vals[i], used[i])
    }

    ghost predicate Valid()
      reads this, keys, vals, used
    {
      && Lawful(h)
      && Shaped()
      && Stores(h, slots, contents)
      && count == |contents| + lost
    }

    constructor (h: Hashing, capacity: nat)
      requires Lawful(h)
      ensures Valid() && this.h == h && contents == map[] && lost == 0 && count == 0
      ensures fresh(keys) && fresh(vals) && fresh(used) && cap == if capacity == 0 then MIN_CAP else capacity
    {
      var n := if capacity == 0 then MIN_CAP else capacity;
      this.h := h;
      cap := n;
      keys := new Word[n](_ => UNDEFINED);
      vals := new Word[n](_ => UNDEFINED);
      used := new bool[n](_ => false);
      count := 0;
      contents := map[];
      lost := 0;
      slots := seq(n, _ => Free);
    }

    method FindEntry(key: Word) returns (found: bool, idx: nat)
      requires Valid()
      ensures found <==> Has(h, contents, key)
      ensures found ==> idx < cap && slots[idx].Full? && h.equal(slots[idx].key, key)
      ensures found ==> Lookup(h, contents, key) == Some(vals[idx]) && Stored(h, contents, key) == keys[idx]
    {
      hide Stores, Lawful, Run;
      idx := 0;
      ghost var s := slots;
      if cap == 0 {
        NothingStored(h, s, contents, key);
        return false, 0;
      }
      idx := h.hash(key) % cap;
      ghost var start := idx;
      var probes: nat := 0;
      while probes < cap
        invariant probes <= cap && idx < cap
        invariant probes < cap ==> idx == Slot(start, probes, cap)
        invariant Misses(h, s, start, key, probes)
      {
        if !used[idx] {
          ProbeEndsAbsent(h, s, contents, key, probes);
          return false, idx;
        }
        if keys[idx] != UNDEFINED && h.equal(keys[idx], key) {
          HitIsStored(h, s, contents, key, idx);
          return true, idx;
        }
        if probes + 1 < cap {
          NextSlot(start, probes, cap);
        }
        idx := (idx + 1) % cap;
        probes := probes + 1;
      }
      ProbeEndsAbsent(h, s, contents, key, probes);
      return false, idx;
    }

    /** Where to write: the slot that holds the key, else the first deleted slot
        of its probe, else the free slot that ended it. It fails exactly when the
        key is absent and every slot is full. */
    method FindInsertSlot(key: Word) returns (ok: bool, idx: nat, found: bool, ghost d: nat)
      requires Valid()
      ensures ok <==> Has(h, contents, key) || HasRoom(slots)
      ensures ok ==> idx < cap && (found <==> Has(h, contents, key))
      ensures ok && found ==> slots[idx].Full? && slots[idx].key == Stored(h, contents, key)
      ensures ok && !found ==> Writable(h, slots, key, idx, d)
    {
      hide Stores, Lawful, Run, Misses, Probed, Slot, Has, Stored, Writable, HasRoom;
      ok, idx, found, d := false, 0, false, 0;
      ghost var s := slots;
      if cap == 0 {
        NothingStored(h, s, contents, key);
        return;
      }
      idx := h.hash(key) % cap;
      ghost var start := idx;
      var firstDeleted: nat := cap;
      ghost var fd := 0;
      var probes: nat := 0;
      StartProbe(h, s, start, key);
      while probes < cap
        invariant probes <= cap && firstDeleted <= cap && !found && !ok
        invariant idx < cap && (probes < cap ==> idx == Slot(start, probes, cap))
        invariant Probed(h, s, start, key, probes, firstDeleted, fd)
      {
        if !used[idx] {
          ProbeMissed(h, s, contents, key, probes, firstDeleted, fd);
          d := if firstDeleted < cap then fd else probes;
          ok, idx, found := true, (if firstDeleted < cap then firstDeleted else idx), false;
          return;
        }
        ghost var fdWas, first := fd, firstDeleted;
        if keys[idx] == UNDEFINED {
          if firstDeleted == cap {
            firstDeleted, fd := idx, probes;
          }
        } else if h.equal(keys[idx], key) {
          HitIsStored(h, s, contents, key, idx);
          return true, idx, true, 0;
        }
        ProbeStep(h, s, start, key, probes, first, fdWas, firstDeleted, fd);
        idx := (idx + 1) % cap;
        probes := probes + 1;
      }
      ProbeMissed(h, s, contents, key, probes, firstDeleted, fd);
      if firstDeleted < cap {
        return true, firstDeleted, false, fd;
      }
    }

    // Writes an absent key while rebuilding: no other key has to be compared.
    method InsertNoResize(key: Word, value: Word)
      requires Valid() && |contents| < cap && lost == 0 && key != UNDEFINED && !Has(h, contents, key)
      modifies this`count, this`contents, this`slots, this`lost, keys, vals, used
      ensures Valid() && lost == old(lost) && contents == Put(h, old(contents), key, value)
    {
      hide Stores, Lawful, Distinct, Has, Put;
      ghost var s := slots;
      RoomIff(h, s, contents);
      ghost var z: nat :| z < cap && !s[z].Full?;
      var idx := h.hash(key) % cap;
      ghost var start := idx;
      ghost var dz := Dist(start, z, cap);
      var probes: nat := 0;
      while probes < cap && used[idx] && keys[idx] != UNDEFINED
        invariant probes <= dz && idx == Slot(start, probes, cap)
        invariant Run(s, start, probes)
        modifies {}
      {
        assert s[idx].Full?;
        NextSlot(start, probes, cap);
        idx := (idx + 1) % cap;
        probes := probes + 1;
      }
      if probes < cap {
        Occupy(idx, probes, key, value);
      }
    }

    // Fills one slot.
    method Write(idx: nat, key: Word, value: Word)
      requires Shaped() && idx < cap
      modifies this`slots, keys, vals, used
      ensures Shaped() && slots == old(slots)[idx := SlotAt(key, value, true)]
    {
      slots := slots[idx := SlotAt(key, value, true)];
      used[idx] := true;
      keys[idx] := key;
      vals[idx] := value;
    }

    /** Moves every entry to new buffers; `memory` is the largest capacity that can be had. */
    method Rehash(targetCap: nat, memory: nat) returns (st: Status)
      requires Valid() && cap <= targetCap
      modifies this
      ensures Valid() && contents == old(contents)
      ensures st == if (if targetCap < MIN_CAP then MIN_CAP else targetCap) > memory then OutOfMemory else OK
      ensures lost <= old(lost)
      ensures st == OK ==> lost == 0 && cap == (if targetCap < MIN_CAP then MIN_CAP else targetCap)
                           && fresh(keys) && fresh(vals) && fresh(used)
      ensures st != OK ==> unchanged(this)
    {
      hide Stores, Lawful, Distinct, InSlot;
      var newCap := if targetCap < MIN_CAP then MIN_CAP else targetCap;
      if newCap > memory {
        return OutOfMemory;
      }
      var oldKeys, oldVals, oldUsed := keys, vals, used;
      ghost var s, was := slots, contents;
      RoomIff(h, s, was);
      StartOver(newCap);
      Refill(oldKeys, oldVals, oldUsed, s, was);
      return OK;
    }

    // New buffers with nothing in them.
    method StartOver(newCap: nat)
      requires Lawful(h)
      modifies this
      ensures Valid() && contents == map[] && lost == 0 && cap == newCap
      ensures fresh(keys) && fresh(vals) && fresh(used)
    {
      hide Stores, Lawful;
      keys := new Word[newCap](_ => UNDEFINED);
      vals := new Word[newCap](_ => UNDEFINED);
      used := new bool[newCap](_ => false);
      cap := newCap;
      count := 0;
      contents := map[];
      lost := 0;
      slots := seq(newCap, _ => Free);
      EmptyStores(h, slots);
    }

    // Inserts every entry of the old buffers.
    method Refill(oldKeys: array<Word>, oldVals: array<Word>, oldUsed: array<bool>, ghost s: seq<Slots>, ghost was: Contents)
      requires Valid() && contents == map[] && lost == 0
      requires Stores(h, s, was) && |was| <= cap
      requires |s| == oldKeys.Length == oldVals.Length == oldUsed.Length
      requires forall i :: 0 <= i < |s| ==> s[i] == SlotAt(oldKeys[i], oldVals[i], oldUsed[i])
      requires {oldKeys, oldVals} !! {keys, vals} && oldUsed != used
      modifies this`count, this`contents, this`slots, this`lost, keys, vals, used
      ensures Valid() && contents == was && lost == 0
    {
      hide Stores, Lawful, Distinct, InSlot, Has, Moved;
      NoneMoved(h, s, was);
      for i := 0 to oldKeys.Length
        invariant Valid() && lost == 0 && Moved(h, s, i, was, contents)
        invariant forall j :: 0 <= j < |s| ==> s[j] == SlotAt(oldKeys[j], oldVals[j], oldUsed[j])
      {
        MoveNext(h, s, i, was, contents);
        if oldUsed[i] && oldKeys[i] != UNDEFINED {
          InsertNoResize(oldKeys[i], oldVals[i]);
        }
      }
      MovedAll(h, s, was, contents);
    }

    method MaybeGrow(memory: nat) returns (st: Status)
      requires Valid()
      modifies this
      ensures Valid() && contents == old(contents)
      ensures st == OK || st == OutOfMemory
      ensures st == OutOfMemory ==> unchanged(this)
      ensures st == OutOfMemory <==> old(CannotGrow(memory))
      ensures st == OK ==> count < cap
      ensures lost <= old(lost)
      ensures (keys == old(keys) || fresh(keys)) && (vals == old(vals) || fresh(vals)) && (used == old(used) || fresh(used))
    {
      hide Stores, Lawful;
      if cap == 0 {
        NothingThere(h, slots, contents);
        st := Rehash(MIN_CAP, memory);
        return;
      }
      if count + 1 > (cap * LOAD_NUM) / LOAD_DEN {
        if cap > SIZE_MAX / 2 {
          return OutOfMemory;
        }
        RoomIff(h, slots, contents);
        st := Rehash(cap * 2, memory);
        return;
      }
      return OK;
    }

    predicate CannotGrow(memory: nat)
      reads this
    {
      var room := if 2 * cap < MIN_CAP then MIN_CAP else 2 * cap;
      (cap == 0 || count + 1 > (cap * LOAD_NUM) / LOAD_DEN) && (cap > SIZE_MAX / 2 || room > memory)
    }

    method Get(key: Word) returns (st: Status, value: Word)
      requires Valid()
      ensures st == if Has(h, contents, key) then OK else NotFound
      ensures st == OK ==> Lookup(h, contents, key) == Some(value)
    {
      hide Stores, Lawful, Lookup, Has;
      var found, idx := FindEntry(key);
      if !found {
        return NotFound, UNDEFINED;
      }
      return OK, vals[idx];
    }

    method Set(key: Word, value: Word, memory: nat) returns (st: Status)
      requires Valid()
      modifies this, keys, vals, used
      ensures Valid()
      ensures st == if old(CannotGrow(memory)) then OutOfMemory else OK
      ensures st == OK ==> contents == Put(h, old(contents), key, value)
      ensures st != OK ==> unchanged(this) && unchanged(keys) && unchanged(vals) && unchanged(used)
      ensures key != UNDEFINED ==> lost <= old(lost)
    {
      hide Stores, Lawful, Writable, HasRoom, Put, Has;
      st := MaybeGrow(memory);
      if st != OK {
        return;
      }
      RoomIff(h, slots, contents);
      var ok, idx, found, d := FindInsertSlot(key);
      if !ok {
        // The source would double the table and look again.
        assert false;
      }
      if found {
        Overwrite(idx, key, value);
      } else {
        Occupy(idx, d, key, value);
      }
      return OK;
    }

    // The new entry of a set.
    method Occupy(idx: nat, ghost d: nat, key: Word, value: Word)
      requires Valid() && Writable(h, slots, key, idx, d) && !Has(h, contents, key)
      modifies this`count, this`contents, this`slots, this`lost, keys, vals, used
      ensures Valid() && contents == Put(h, old(contents), key, value)
      ensures lost == old(lost) + if key == UNDEFINED then 1 else 0
    {
      hide Stores, Lawful, Has;
      ghost var s, m := slots, contents;
      if key == UNDEFINED {
        StoresAfterMark(h, s, m, idx);
        lost := lost + 1;
      } else {
        StoresAfterInsert(h, s, m, key, value, idx, d);
        FreshKey(h, m, key);
        contents := m[key := value];
      }
      Write(idx, key, value);
      count := count + 1;
    }

    // The new value of a key that is there.
    method Overwrite(idx: nat, key: Word, value: Word)
      requires Valid() && Has(h, contents, key)
      requires idx < cap && slots[idx].Full? && slots[idx].key == Stored(h, contents, key)
      modifies this`slots, this`contents, vals
      ensures Valid() && contents == Put(h, old(contents), key, value)
    {
      hide Stores, Lawful, Has;
      StoresAfterOverwrite(h, slots, contents, idx, value);
      contents := contents[keys[idx] := value];
      slots := slots[idx := Full(keys[idx], value)];
      vals[idx] := value;
    }

    method Delete(key: Word) returns (st: Status)
      requires Valid()
      modifies this, keys, vals, used
      ensures Valid() && lost == old(lost)
      ensures contents == Remove(h, old(contents), key)
      ensures st == if Has(h, old(contents), key) then OK else NotFound
    {
      hide Stores, Lawful, Lookup;
      var found, idx := FindEntry(key);
      if !found {
        return NotFound;
      }
      ghost var s := slots;
      StoresAfterDelete(h, s, contents, idx);
      Write(idx, UNDEFINED, UNDEFINED);
      ghost var gone := Stored(h, contents, key);
      assert |contents - {gone}| == |contents| - 1 by {
        assert (contents - {gone}).Keys == contents.Keys - {gone};
      }
      contents := contents - {gone};
      if count > 0 {
        count := count - 1;
      }
      return OK;
    }
  }

  lemma NothingThere(h: Hashing, s: seq<Slots>, m: Contents)
    requires Stores(h, s, m) && s == []
    ensures m == map[]
  {
    assert forall k :: k in m ==> InSlot(s, k);
  }

  lemma NothingStored(h: Hashing, s: seq<Slots>, m: Contents, key: Word)
    requires Stores(h, s, m) && s == []
    ensures !Has(h, m, key) && !HasRoom(s)
  {
    NothingThere(h, s, m);
  }

  // What an insertion knows after d probes: no match, and the first deleted slot met.
  ghost predicate Probed(h: Hashing, s: seq<Slots>, start: nat, key: Word, d: nat, first: nat, fd: nat) {
    && start < |s| && d <= |s| && Misses(h, s, start, key, d)
    && first <= |s|
    && (first < |s| ==> fd < d && first == Slot(start, fd, |s|) && s[first].Deleted?)
    && (first == |s| ==> forall e :: 0 <= e < d ==> s[Slot(start, e, |s|)].Full?)
  }

  lemma StartProbe(h: Hashing, s: seq<Slots>, start: nat, key: Word)
    requires start < |s|
    ensures Slot(start, 0, |s|) == start && Probed(h, s, start, key, 0, |s|, 0)
  {
  }

  lemma ProbeStep(h: Hashing, s: seq<Slots>, start: nat, key: Word, d: nat,
                  first: nat, fd: nat, firstNow: nat, fdNow: nat)
    requires Probed(h, s, start, key, d, first, fd) && d < |s|
    requires !s[Slot(start, d, |s|)].Free?
    requires s[Slot(start, d, |s|)].Full? ==> !h.equal(s[Slot(start, d, |s|)].key, key)
    requires if s[Slot(start, d, |s|)].Deleted? && first == |s|
             then firstNow == Slot(start, d, |s|) && fdNow == d else firstNow == first && fdNow == fd
    ensures Probed(h, s, start, key, d + 1, firstNow, fdNow)
    ensures (Slot(start, d, |s|) + 1) % |s| < |s|
    ensures d + 1 < |s| ==> (Slot(start, d, |s|) + 1) % |s| == Slot(start, d + 1, |s|)
  {
    if d + 1 < |s| {
      NextSlot(start, d, |s|);
    }
  }

  lemma ProbeMissed(h: Hashing, s: seq<Slots>, m: Contents, key: Word, d: nat, first: nat, fd: nat)
    requires Lawful(h) && Stores(h, s, m) && |s| > 0 && Probed(h, s, Home(h, key, |s|), key, d, first, fd)
    requires d < |s| ==> s[Slot(Home(h, key, |s|), d, |s|)].Free?
    ensures !Has(h, m, key)
    ensures first <= |s| && (HasRoom(s) <==> first < |s| || d < |s|)
    ensures first < |s| ==> Writable(h, s, key, first, fd)
    ensures first == |s| && d < |s| ==> Writable(h, s, key, Slot(Home(h, key, |s|), d, |s|), d)
  {
    ProbeEndsAbsent(h, s, m, key, d);
    if first == |s| && d == |s| {
      AllProbedAreAll(s, Home(h, key, |s|));
    }
  }

  lemma AllProbedAreAll(s: seq<Slots>, start: nat)
    requires start < |s| && forall e :: 0 <= e < |s| ==> s[Slot(start, e, |s|)].Full?
    ensures forall i :: 0 <= i < |s| ==> s[i].Full?
  {
    forall i | 0 <= i < |s|
      ensures s[i].Full?
    {
      assert s[Slot(start, Dist(start, i, |s|), |s|)].Full?;
    }
  }

  lemma FreshKey(h: Hashing, m: Contents, key: Word)
    requires Lawful(h) && !Has(h, m, key)
    ensures key !in m
  {
    assert h.equal(key, key);
  }

  lemma EmptyStores(h: Hashing, s: seq<Slots>)
    requires forall i :: 0 <= i < |s| ==> s[i].Free?
    ensures Stores(h, s, map[])
  {
  }

  // The entries the first i slots of the old buffers hold.
  ghost predicate Moved(h: Hashing, s: seq<Slots>, i: nat, m: Contents, moved: Contents) {
    && i <= |s| && Stores(h, s, m)
    && (forall k :: k in moved ==> k in m && m[k] == moved[k])
    && (forall k :: k in moved <==> InSlot(s[..i], k))
  }

  lemma NoneMoved(h: Hashing, s: seq<Slots>, m: Contents)
    requires Stores(h, s, m)
    ensures Moved(h, s, 0, m, map[])
  {
  }

  lemma MoveNext(h: Hashing, s: seq<Slots>, i: nat, m: Contents, moved: Contents)
    requires Moved(h, s, i, m, moved) && i < |s|
    ensures s[i].Full? ==> s[i].key != UNDEFINED && !Has(h, moved, s[i].key)
                           && Moved(h, s, i + 1, m, moved[s[i].key := s[i].val]) && |moved| < |m|
    ensures !s[i].Full? ==> Moved(h, s, i + 1, m, moved)
  {
    hide Reached;
    assert s[..i + 1] == s[..i] + [s[i]];
    forall k ensures InSlot(s[..i + 1], k) <==> InSlot(s[..i], k) || (s[i].Full? && s[i].key == k)
    {
      InSlotStep(s[..i], s[i], k);
    }
    if s[i].Full? {
      assert s[i].key in m && s[i].key !in moved;
      assert forall k :: k in moved ==> !h.equal(k, s[i].key);
      Smaller(moved, m, s[i].key);
    }
  }

  lemma InSlotStep(r: seq<Slots>, x: Slots, k: Word)
    ensures InSlot(r + [x], k) <==> InSlot(r, k) || (x.Full? && x.key == k)
  {
    var s := r + [x];
    if InSlot(r, k) {
      var i :| 0 <= i < |r| && r[i].Full? && r[i].key == k;
      assert s[i].key == k;
    }
    if x.Full? && x.key == k {
      assert s[|r|].key == k;
    }
  }

  lemma Smaller(a: Contents, b: Contents, k: Word)
    requires (forall x :: x in a ==> x in b) && k in b && k !in a
    ensures |a| < |b|
  {
    SubsetIsSmaller(a.Keys + {k}, b.Keys);
  }

  lemma {:induction false} SubsetIsSmaller(a: set<Word>, b: set<Word>)
    requires a <= b
    ensures |a| <= |b|
  {
    if a != {} {
      var x :| x in a;
      SubsetIsSmaller(a - {x}, b - {x});
    }
  }

  lemma MovedAll(h: Hashing, s: seq<Slots>, m: Contents, moved: Contents)
    requires Moved(h, s, |s|, m, moved)
    ensures moved == m
  {
    hide Reached;
    assert s[..|s|] == s;
  }
}
