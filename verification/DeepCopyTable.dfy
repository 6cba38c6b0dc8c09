/** The table of objects a deep copy has already met: open addressing with
    linear probing over a buffer that is never more than half full. */
module DeepCopyTable {
  import opened Probing

  type Ref = nat

  datatype Value = Imm(bits: nat) | Ptr(ref: Ref)

  const VISITED_INIT_CAP := 64

  datatype Entry = Empty | Entry(src: Ref, dest: Value)

  /** The home slot of an address: its low four bits carry nothing. */
  function Home(src: Ref, cap: nat): (i: nat)
    requires cap > 0
    ensures i < cap
  {
    (src / 16) % cap
  }

  function Occupied(s: seq<Entry>): (n: nat)
    ensures n <= |s|
  {
    if s == [] then 0 else Occupied(s[..|s| - 1]) + if s[|s| - 1].Entry? then 1 else 0
  }

  /** The first d slots probed from `start` are taken. */
  ghost predicate Run(s: seq<Entry>, start: nat, d: nat)
    requires start < |s| && d < |s|
  {
    forall e :: 0 <= e < d ==> s[Slot(start, e, |s|)].Entry?
  }

  /** A table that stores exactly `contents`, each key once, on an unbroken run
      of taken slots from its home. */
  ghost predicate Stores(s: seq<Entry>, contents: map<Ref, Value>) {
    && |s| > 0
    && (forall i :: 0 <= i < |s| && s[i].Entry? ==>
          && s[i].src in contents && contents[s[i].src] == s[i].dest
          && Run(s, Home(s[i].src, |s|), Dist(Home(s[i].src, |s|), i, |s|)))
    && (forall i, j :: 0 <= i < j < |s| && s[i].Entry? && s[j].Entry? ==> s[i].src != s[j].src)
    && (forall k :: k in contents ==> exists i :: 0 <= i < |s| && s[i].Entry? && s[i].src == k)
  }

  lemma {:induction false} SomeSlotIsEmpty(s: seq<Entry>) returns (z: nat)
    requires Occupied(s) < |s|
    ensures z < |s| && s[z].Empty?
  {
    if s[|s| - 1].Empty? {
      z := |s| - 1;
    } else {
      z := SomeSlotIsEmpty(s[..|s| - 1]);
    }
  }

  lemma {:induction false} OccupiedAfterWrite(s: seq<Entry>, i: nat, e: Entry)
    requires i < |s| && e.Entry?
    ensures Occupied(s[i := e]) == Occupied(s) + if s[i].Entry? then 0 else 1
  {
    var t := s[i := e];
    if i == |s| - 1 {
      assert t[..|t| - 1] == s[..|s| - 1];
    } else {
      OccupiedAfterWrite(s[..|s| - 1], i, e);
      assert t[..|t| - 1] == s[..|s| - 1][i := e];
    }
  }

  lemma {:induction false} NothingOccupied(s: seq<Entry>)
    requires forall i :: 0 <= i < |s| ==> s[i].Empty?
    ensures Occupied(s) == 0
  {
    if s != [] {
      NothingOccupied(s[..|s| - 1]);
    }
  }

  lemma KeyOnRun(s: seq<Entry>, contents: map<Ref, Value>, key: Ref) returns (d: nat)
    requires Stores(s, contents) && key in contents
    ensures d < |s| && Run(s, Home(key, |s|), d)
    ensures s[Slot(Home(key, |s|), d, |s|)].Entry? && s[Slot(Home(key, |s|), d, |s|)].src == key
  {
    var i :| 0 <= i < |s| && s[i].Entry? && s[i].src == key;
    d := Dist(Home(key, |s|), i, |s|);
  }

  /** A probe that reaches an empty slot proves the key absent. */
  lemma ProbeEndsAbsent(s: seq<Entry>, contents: map<Ref, Value>, key: Ref, d: nat)
    requires Stores(s, contents) && d < |s|
    requires s[Slot(Home(key, |s|), d, |s|)].Empty?
    requires forall e :: 0 <= e < d ==> s[Slot(Home(key, |s|), e, |s|)].Entry? && s[Slot(Home(key, |s|), e, |s|)].src != key
    ensures key !in contents
  {
    if key in contents {
      var dk := KeyOnRun(s, contents, key);
    }
  }

  lemma FoundIsStored(s: seq<Entry>, contents: map<Ref, Value>, i: nat)
    requires Stores(s, contents) && i < |s| && s[i].Entry?
    ensures s[i].src in contents && contents[s[i].src] == s[i].dest
  {
  }

  /** Writing a new key at the first empty slot of its run keeps the table. */
  lemma StoresAfterInsert(s: seq<Entry>, contents: map<Ref, Value>, key: Ref, dest: Value, d: nat)
    requires Stores(s, contents) && d < |s| && key !in contents
    requires s[Slot(Home(key, |s|), d, |s|)].Empty? && Run(s, Home(key, |s|), d)
    ensures Stores(s[Slot(Home(key, |s|), d, |s|) := Entry(key, dest)], contents[key := dest])
  {
    var at := Slot(Home(key, |s|), d, |s|);
    var t := s[at := Entry(key, dest)];
    SlotOfDist(Home(key, |s|), d, |s|);
    forall i | 0 <= i < |t| && t[i].Entry?
      ensures Run(t, Home(t[i].src, |t|), Dist(Home(t[i].src, |t|), i, |t|))
    {
      if i != at {
        assert Run(s, Home(s[i].src, |s|), Dist(Home(s[i].src, |s|), i, |s|));
      }
    }
    var more := contents[key := dest];
    forall k | k in more
      ensures exists i :: 0 <= i < |t| && t[i].Entry? && t[i].src == k
    {
      if k == key {
        assert t[at].src == k;
      } else {
        var i :| 0 <= i < |s| && s[i].Entry? && s[i].src == k;
        assert t[i].src == k;
      }
    }
  }

  lemma StoresAfterOverwrite(s: seq<Entry>, contents: map<Ref, Value>, i: nat, dest: Value)
    requires Stores(s, contents) && i < |s| && s[i].Entry?
    ensures Stores(s[i := Entry(s[i].src, dest)], contents[s[i].src := dest])
  {
    var t := s[i := Entry(s[i].src, dest)];
    forall j | 0 <= j < |t| && t[j].Entry?
      ensures Run(t, Home(t[j].src, |t|), Dist(Home(t[j].src, |t|), j, |t|))
    {
      assert Run(s, Home(s[j].src, |s|), Dist(Home(s[j].src, |s|), j, |s|));
    }
    forall k | k in contents
      ensures exists j :: 0 <= j < |t| && t[j].Entry? && t[j].src == k
    {
      var j :| 0 <= j < |s| && s[j].Entry? && s[j].src == k;
      assert t[j].src == k;
    }
  }

  class Visited {
    var entries: array<Entry>
    var count: nat
    ghost var contents: map<Ref, Value>

    ghost predicate Valid()
      reads this, entries
    {
      && Stores(entries[..], contents)
      && Occupied(entries[..]) == count
      && 2 * count <= entries.Length
      && entries.Length % 2 == 0
    }

    constructor ()
      ensures Valid() && contents == map[] && fresh(entries)
    {
      entries := new Entry[VISITED_INIT_CAP](_ => Empty);
      count := 0;
      contents := map[];
      new;
      NothingOccupied(entries[..]);
    }

    /** The slot of `key`: the one that holds it, or the empty slot where its
        probe ends. */
    static method Find(a: array<Entry>, key: Ref, ghost contents: map<Ref, Value>) returns (idx: nat, ghost d: nat)
      requires Stores(a[..], contents) && Occupied(a[..]) < a.Length
      ensures d < a.Length && idx == Slot(Home(key, a.Length), d, a.Length)
      ensures Run(a[..], Home(key, a.Length), d)
      ensures a[idx].Entry? ==> a[idx].src == key
      ensures a[idx].Entry? <==> key in contents
    {
      var cap := a.Length;
      ghost var z := SomeSlotIsEmpty(a[..]);
      ghost var dz := Dist(Home(key, cap), z, cap);
      idx := Home(key, cap);
      d := 0;
      while a[idx].Entry? && a[idx].src != key
        invariant d <= dz && idx == Slot(Home(key, cap), d, cap)
        invariant forall e :: 0 <= e < d ==>
                    a[Slot(Home(key, cap), e, cap)].Entry? && a[Slot(Home(key, cap), e, cap)].src != key
        decreases dz - d
      {
        NextSlot(Home(key, cap), d, cap);
        idx := (idx + 1) % cap;
        d := d + 1;
      }
      if a[idx].Empty? {
        ProbeEndsAbsent(a[..], contents, key, d);
      } else {
        FoundIsStored(a[..], contents, idx);
      }
    }

    method Get(src: Ref) returns (found: bool, dest: Value)
      requires Valid()
      ensures found <==> src in contents
      ensures found ==> dest == contents[src]
    {
      hide Run, Occupied;
      var idx, _ := Find(entries, src, contents);
      if entries[idx].Empty? {
        return false, Imm(0);
      }
      FoundIsStored(entries[..], contents, idx);
      return true, entries[idx].dest;
    }

    // Writes an entry with a new key at the end of its probe.
    static method Rehash(a: array<Entry>, e: Entry, ghost contents: map<Ref, Value>)
      requires Stores(a[..], contents) && Occupied(a[..]) < a.Length && e.Entry? && e.src !in contents
      modifies a
      ensures Stores(a[..], contents[e.src := e.dest]) && Occupied(a[..]) == old(Occupied(a[..])) + 1
    {
      hide Stores, Occupied;
      ghost var before := a[..];
      var cap := a.Length;
      ghost var z := SomeSlotIsEmpty(before);
      ghost var dz := Dist(Home(e.src, cap), z, cap);
      var idx := Home(e.src, cap);
      ghost var d := 0;
      while a[idx].Entry?
        invariant d <= dz && idx == Slot(Home(e.src, cap), d, cap) && a[..] == before
        invariant Run(before, Home(e.src, cap), d)
        decreases dz - d
      {
        NextSlot(Home(e.src, cap), d, cap);
        idx := (idx + 1) % cap;
        d := d + 1;
      }
      StoresAfterInsert(before, contents, e.src, e.dest, d);
      OccupiedAfterWrite(before, idx, e);
      a[idx] := e;
      assert a[..] == before[idx := e];
    }

    method Grow()
      requires Valid()
      modifies this
      ensures Valid() && contents == old(contents) && count == old(count)
      ensures fresh(entries) && entries.Length == 2 * old(entries.Length)
    {
      hide Run;
      var was := entries;
      ghost var s := was[..];
      var ne := new Entry[was.Length * 2](_ => Empty);
      ghost var moved: map<Ref, Value> := map[];
      NothingOccupied(ne[..]);
      assert Stores(ne[..], moved);
      assert s[..0] == [];
      hide Stores, Occupied;
      for i := 0 to was.Length
        invariant ne.Length == 2 * |s| && entries == was && was[..] == s && 2 * count == 2 * old(count)
        invariant Stores(ne[..], moved) && Occupied(ne[..]) == Occupied(s[..i])
        invariant Moved(s, i, contents, moved)
      {
        MoveNext(s, i, contents, moved);
        if was[i].Entry? {
          Rehash(ne, was[i], moved);
          moved := moved[was[i].src := was[i].dest];
        }
      }
      MovedAll(s, contents, moved);
      assert s[..|s|] == s;
      entries := ne;
    }

    method Put(src: Ref, dest: Value)
      requires Valid()
      modifies this, entries
      ensures Valid() && contents == old(contents)[src := dest]
      ensures entries == old(entries) || fresh(entries)
    {
      if count * 2 >= entries.Length {
        Grow();
      }
      Write(src, dest);
    }

    method Write(src: Ref, dest: Value)
      requires Valid() && 2 * count < entries.Length
      modifies this`count, this`contents, entries
      ensures Valid() && contents == old(contents)[src := dest]
    {
      hide Stores, Run, Occupied;
      ghost var was := entries[..];
      var idx, d := Find(entries, src, contents);
      OccupiedAfterWrite(was, idx, Entry(src, dest));
      if entries[idx].Empty? {
        StoresAfterInsert(was, contents, src, dest, d);
        count := count + 1;
      } else {
        StoresAfterOverwrite(was, contents, idx, dest);
      }
      entries[idx] := Entry(src, dest);
      assert entries[..] == was[idx := Entry(src, dest)];
      contents := contents[src := dest];
    }
  }

  // The part of the table the first i slots of the old buffer hold.
  ghost predicate Moved(s: seq<Entry>, i: nat, contents: map<Ref, Value>, moved: map<Ref, Value>) {
    && i <= |s| && Stores(s, contents)
    && (forall k :: k in moved ==> k in contents && contents[k] == moved[k])
    && (forall k :: k in moved <==> exists j :: 0 <= j < i && s[j].Entry? && s[j].src == k)
  }

  lemma MoveNext(s: seq<Entry>, i: nat, contents: map<Ref, Value>, moved: map<Ref, Value>)
    requires Moved(s, i, contents, moved) && i < |s|
    ensures Occupied(s[..i + 1]) == Occupied(s[..i]) + if s[i].Entry? then 1 else 0
    ensures Occupied(s[..i]) <= i
    ensures s[i].Entry? ==> s[i].src !in moved && Moved(s, i + 1, contents, moved[s[i].src := s[i].dest])
    ensures s[i].Empty? ==> Moved(s, i + 1, contents, moved)
  {
    hide Run;
    assert s[..i + 1][..i] == s[..i];
    if s[i].Entry? {
      FoundIsStored(s, contents, i);
      var more := moved[s[i].src := s[i].dest];
      forall k
        ensures k in more <==> exists j :: 0 <= j < i + 1 && s[j].Entry? && s[j].src == k
      {
        if k == s[i].src { assert s[i].src == k; }
      }
    }
  }

  lemma MovedAll(s: seq<Entry>, contents: map<Ref, Value>, moved: map<Ref, Value>)
    requires Moved(s, |s|, contents, moved)
    ensures moved == contents
  {
    hide Run;
  }
}
