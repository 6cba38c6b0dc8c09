/** What a hash table means: a finite map whose keys are compared by the
    table's equivalence, stored in slots that are free, deleted or full. */
module HashtableSpec {
  import opened Probing

  type Word = nat

  // The word that marks an empty or deleted slot; the source never treats it as a key.
  const UNDEFINED: Word := 0xFFFE_0000_0000_0005

  datatype Option<T> = None | Some(value: T)

  datatype Hashing = Hashing(equal: (Word, Word) -> bool, hash: Word -> nat)

  /** An equivalence on keys, and a hash that respects it. */
  ghost predicate Lawful(h: Hashing) {
    && (forall a :: h.equal(a, a))
    && (forall a, b :: h.equal(a, b) ==> h.equal(b, a) && h.hash(a) == h.hash(b))
    && (forall a, b, c :: h.equal(a, b) && h.equal(b, c) ==> h.equal(a, c))
  }

  type Contents = map<Word, Word>

  /** No two stored keys are equal to each other. */
  ghost predicate Distinct(h: Hashing, m: Contents) {
    forall a, b :: a in m && b in m && h.equal(a, b) ==> a == b
  }

  ghost predicate Has(h: Hashing, m: Contents, key: Word) {
    exists k :: k in m && h.equal(k, key)
  }

  /** The stored key equal to `key`. */
  ghost function Stored(h: Hashing, m: Contents, key: Word): (k: Word)
    requires Has(h, m, key)
    ensures k in m && h.equal(k, key)
  {
    var k :| k in m && h.equal(k, key);
    k
  }

  ghost function Lookup(h: Hashing, m: Contents, key: Word): Option<Word> {
    if Has(h, m, key) then Some(m[Stored(h, m, key)]) else None
  }

  /** A key that is already there keeps its first stored form; UNDEFINED cannot become a key. */
  ghost function Put(h: Hashing, m: Contents, key: Word, value: Word): Contents {
    if Has(h, m, key) then m[Stored(h, m, key) := value]
    else if key == UNDEFINED then m
    else m[key := value]
  }

  ghost function Remove(h: Hashing, m: Contents, key: Word): Contents {
    if Has(h, m, key) then m - {Stored(h, m, key)} else m
  }

  lemma StoredIs(h: Hashing, m: Contents, key: Word, k: Word)
    requires Lawful(h) && Distinct(h, m) && k in m && h.equal(k, key)
    ensures Has(h, m, key) && Stored(h, m, key) == k
  {
    assert h.equal(key, Stored(h, m, key));
  }

  lemma LookupIs(h: Hashing, m: Contents, key: Word, k: Word)
    requires Lawful(h) && Distinct(h, m) && k in m && h.equal(k, key)
    ensures Lookup(h, m, key) == Some(m[k])
  {
    StoredIs(h, m, key, k);
  }

  lemma PutIsDistinct(h: Hashing, m: Contents, key: Word, value: Word)
    requires Lawful(h) && Distinct(h, m)
    ensures Distinct(h, Put(h, m, key, value))
  {
  }

  /** A put is seen through every equal key, and through no other. */
  lemma PutThenLookup(h: Hashing, m: Contents, key: Word, value: Word, other: Word)
    requires Lawful(h) && Distinct(h, m) && (key != UNDEFINED || Has(h, m, key))
    ensures Lookup(h, Put(h, m, key, value), other)
         == if h.equal(key, other) then Some(value) else Lookup(h, m, other)
  {
    PutIsDistinct(h, m, key, value);
    var p := Put(h, m, key, value);
    var at := if Has(h, m, key) then Stored(h, m, key) else key;
    assert h.equal(at, key);
    if h.equal(key, other) {
      LookupIs(h, p, other, at);
    } else if Has(h, m, other) {
      var k := Stored(h, m, other);
      assert k != at;
      LookupIs(h, p, other, k);
    }
  }

  lemma RemoveThenLookup(h: Hashing, m: Contents, key: Word, other: Word)
    requires Lawful(h) && Distinct(h, m)
    ensures Distinct(h, Remove(h, m, key))
    ensures Lookup(h, Remove(h, m, key), other) == if h.equal(key, other) then None else Lookup(h, m, other)
  {
    var r := Remove(h, m, key);
    if h.equal(key, other) {
      if Has(h, r, other) {
        var k := Stored(h, r, other);
        assert h.equal(other, key) && h.equal(k, key);
        StoredIs(h, m, key, k);
      }
    } else if Has(h, m, other) {
      var k := Stored(h, m, other);
      assert k in r;
      LookupIs(h, r, other, k);
    }
  }

  // ---- whole runs ----

  datatype Op = SetOp(key: Word, value: Word) | DeleteOp(key: Word)

  ghost function After(h: Hashing, ops: seq<Op>): (m: Contents) {
    if ops == [] then map[]
    else
      var before := After(h, ops[..|ops| - 1]);
      match ops[|ops| - 1]
      case SetOp(k, v) => Put(h, before, k, v)
      case DeleteOp(k) => Remove(h, before, k)
  }

  /** The value of the last operation on an equal key, unless it deleted it. */
  function LastWrite(h: Hashing, ops: seq<Op>, key: Word): Option<Word> {
    if ops == [] then None
    else
      var last := ops[|ops| - 1];
      if h.equal(last.key, key) then (if last.SetOp? then Some(last.value) else None)
      else LastWrite(h, ops[..|ops| - 1], key)
  }

  /** Whatever sets and deletes came before, looking a key up finds the last value
      set for an equal key and not deleted since. */
  lemma {:induction false} RunRemembersLastWrite(h: Hashing, ops: seq<Op>, key: Word)
    requires Lawful(h) && forall i :: 0 <= i < |ops| ==> ops[i].key != UNDEFINED
    ensures Distinct(h, After(h, ops))
    ensures Lookup(h, After(h, ops), key) == LastWrite(h, ops, key)
  {
    if ops != [] {
      var before := After(h, ops[..|ops| - 1]);
      RunRemembersLastWrite(h, ops[..|ops| - 1], key);
      var last := ops[|ops| - 1];
      if last.SetOp? {
        PutIsDistinct(h, before, last.key, last.value);
        PutThenLookup(h, before, last.key, last.value, key);
      } else {
        RemoveThenLookup(h, before, last.key, key);
      }
    }
  }

  // ---- slots ----

  datatype Slots = Free | Deleted | Full(key: Word, val: Word)

  function Home(h: Hashing, key: Word, cap: nat): (i: nat)
    requires cap > 0
    ensures i < cap
  {
    h.hash(key) % cap
  }

  /** A probe from `start` walks over the first d slots. */
  ghost predicate Run(s: seq<Slots>, start: nat, d: nat)
    requires start < |s| && d <= |s|
  {
    forall e :: 0 <= e < d ==> !s[Slot(start, e, |s|)].Free?
  }

  ghost predicate Reached(h: Hashing, s: seq<Slots>, i: nat)
    requires i < |s| && s[i].Full?
  {
    Run(s, Home(h, s[i].key, |s|), Dist(Home(h, s[i].key, |s|), i, |s|))
  }

  ghost predicate InSlot(s: seq<Slots>, k: Word) {
    exists i :: 0 <= i < |s| && s[i].Full? && s[i].key == k
  }

  /** The slots store exactly m, each key once, where a probe from its home gets. */
  ghost predicate Stores(h: Hashing, s: seq<Slots>, m: Contents) {
    && (forall i :: 0 <= i < |s| && s[i].Full? ==>
          s[i].key in m && m[s[i].key] == s[i].val && Reached(h, s, i))
    && (forall i, j :: 0 <= i < j < |s| && s[i].Full? && s[j].Full? ==> s[i].key != s[j].key)
    && (forall k :: k in m ==> InSlot(s, k))
    && Distinct(h, m)
    && UNDEFINED !in m
  }

  ghost predicate Misses(h: Hashing, s: seq<Slots>, start: nat, key: Word, d: nat)
    requires start < |s| && d <= |s|
  {
    forall e :: 0 <= e < d ==>
      var slot := s[Slot(start, e, |s|)];
      !slot.Free? && (slot.Full? ==> !h.equal(slot.key, key))
  }

  lemma KeyOnRun(h: Hashing, s: seq<Slots>, m: Contents, key: Word) returns (e: nat)
    requires Lawful(h) && Stores(h, s, m) && Has(h, m, key)
    ensures e < |s| && Run(s, Home(h, key, |s|), e)
    ensures var slot := s[Slot(Home(h, key, |s|), e, |s|)]; slot.Full? && h.equal(slot.key, key)
  {
    var k := Stored(h, m, key);
    assert InSlot(s, k);
    var i :| 0 <= i < |s| && s[i].Full? && s[i].key == k;
    assert Reached(h, s, i);
    e := Dist(Home(h, k, |s|), i, |s|);
  }

  /** A probe that meets a free slot, or all slots, without a match proves the key absent. */
  lemma ProbeEndsAbsent(h: Hashing, s: seq<Slots>, m: Contents, key: Word, d: nat)
    requires Lawful(h) && Stores(h, s, m) && |s| > 0 && d <= |s|
    requires Misses(h, s, Home(h, key, |s|), key, d)
    requires d < |s| ==> s[Slot(Home(h, key, |s|), d, |s|)].Free?
    ensures !Has(h, m, key)
  {
    if Has(h, m, key) {
      var e := KeyOnRun(h, s, m, key);
    }
  }

  lemma HitIsStored(h: Hashing, s: seq<Slots>, m: Contents, key: Word, i: nat)
    requires Lawful(h) && Stores(h, s, m) && i < |s| && s[i].Full? && h.equal(s[i].key, key)
    ensures Has(h, m, key) && Stored(h, m, key) == s[i].key && Lookup(h, m, key) == Some(s[i].val)
  {
    StoredIs(h, m, key, s[i].key);
  }

  /** Slot `at` is free or deleted, and the probe of `key` gets there in d steps. */
  ghost predicate Writable(h: Hashing, s: seq<Slots>, key: Word, at: nat, d: nat) {
    && at < |s| && d < |s| && at == Slot(Home(h, key, |s|), d, |s|)
    && !s[at].Full? && Run(s, Home(h, key, |s|), d)
  }

  ghost predicate HasRoom(s: seq<Slots>) {
    exists i :: 0 <= i < |s| && !s[i].Full?
  }

  lemma StoresAfterInsert(h: Hashing, s: seq<Slots>, m: Contents, key: Word, val: Word, at: nat, d: nat)
    requires Lawful(h) && Stores(h, s, m) && !Has(h, m, key) && key != UNDEFINED && Writable(h, s, key, at, d)
    ensures Stores(h, s[at := Full(key, val)], m[key := val])
  {
    var t := s[at := Full(key, val)];
    SlotOfDist(Home(h, key, |s|), d, |s|);
    var more := m[key := val];
    assert key !in m;
    assert more == Put(h, m, key, val);
    PutIsDistinct(h, m, key, val);
    forall i | 0 <= i < |t| && t[i].Full?
      ensures t[i].key in more && more[t[i].key] == t[i].val && Reached(h, t, i)
    {
      if i != at {
        assert Reached(h, s, i);
      }
    }
    forall k | k in more
      ensures InSlot(t, k)
    {
      if k == key {
        assert t[at].key == k;
      } else {
        assert InSlot(s, k);
        var i :| 0 <= i < |s| && s[i].Full? && s[i].key == k;
        assert t[i].key == k;
      }
    }
  }

  lemma StoresAfterOverwrite(h: Hashing, s: seq<Slots>, m: Contents, i: nat, val: Word)
    requires Stores(h, s, m) && i < |s| && s[i].Full?
    ensures Stores(h, s[i := Full(s[i].key, val)], m[s[i].key := val])
  {
    var t := s[i := Full(s[i].key, val)];
    forall j | 0 <= j < |t| && t[j].Full?
      ensures Reached(h, t, j)
    {
      assert Reached(h, s, j);
    }
    forall k | k in m
      ensures InSlot(t, k)
    {
      assert InSlot(s, k);
      var j :| 0 <= j < |s| && s[j].Full? && s[j].key == k;
      assert t[j].key == k;
    }
  }

  /** Deleting leaves a mark, so that probes still walk over the slot. */
  lemma StoresAfterDelete(h: Hashing, s: seq<Slots>, m: Contents, i: nat)
    requires Stores(h, s, m) && i < |s| && s[i].Full?
    ensures Stores(h, s[i := Deleted], m - {s[i].key})
  {
    var t := s[i := Deleted];
    forall j | 0 <= j < |t| && t[j].Full?
      ensures s[j].Full? && t[j] == s[j] && s[j].key != s[i].key && Reached(h, t, j)
    {
      assert Reached(h, s, j);
    }
    forall k | k in m && k != s[i].key
      ensures InSlot(t, k)
    {
      assert InSlot(s, k);
      var j :| 0 <= j < |s| && s[j].Full? && s[j].key == k;
      assert t[j].key == k;
    }
  }

  /** Marking a free slot deleted stores the same map. */
  lemma StoresAfterMark(h: Hashing, s: seq<Slots>, m: Contents, i: nat)
    requires Stores(h, s, m) && i < |s| && !s[i].Full?
    ensures Stores(h, s[i := Deleted], m)
  {
    var t := s[i := Deleted];
    forall j | 0 <= j < |t| && t[j].Full?
      ensures s[j].Full? && t[j] == s[j] && Reached(h, t, j)
    {
      assert Reached(h, s, j);
    }
    forall k | k in m
      ensures InSlot(t, k)
    {
      assert InSlot(s, k);
      var j :| 0 <= j < |s| && s[j].Full? && s[j].key == k;
      assert t[j].key == k;
    }
  }

  // ---- sizes ----

  ghost function Keys(s: seq<Slots>): set<Word> {
    if s == [] then {}
    else Keys(s[..|s| - 1]) + (if s[|s| - 1].Full? then {s[|s| - 1].key} else {})
  }

  lemma {:induction false} KeysAre(s: seq<Slots>, k: Word)
    ensures k in Keys(s) <==> InSlot(s, k)
  {
    if s != [] {
      var r := s[..|s| - 1];
      KeysAre(r, k);
      if InSlot(r, k) {
        var i :| 0 <= i < |r| && r[i].Full? && r[i].key == k;
        assert s[i].key == k;
      }
      if InSlot(s, k) {
        var i :| 0 <= i < |s| && s[i].Full? && s[i].key == k;
        if i < |r| { assert r[i].key == k; }
      }
    }
  }

  ghost predicate OnceEach(s: seq<Slots>) {
    forall i, j :: 0 <= i < j < |s| && s[i].Full? && s[j].Full? ==> s[i].key != s[j].key
  }

  lemma {:induction false} KeysFit(s: seq<Slots>)
    requires OnceEach(s)
    ensures |Keys(s)| <= |s|
    ensures |Keys(s)| == |s| ==> forall i :: 0 <= i < |s| ==> s[i].Full?
    ensures (forall i :: 0 <= i < |s| ==> s[i].Full?) ==> |Keys(s)| == |s|
  {
    if s != [] {
      var r := s[..|s| - 1];
      KeysFit(r);
      if s[|s| - 1].Full? {
        KeysAre(r, s[|s| - 1].key);
        assert s[|s| - 1].key !in Keys(r);
      }
    }
  }

  /** Some slot can still be written exactly when the map is smaller than the table. */
  lemma RoomIff(h: Hashing, s: seq<Slots>, m: Contents)
    requires Stores(h, s, m)
    ensures |m| <= |s|
    ensures |m| < |s| <==> HasRoom(s)
  {
    hide Reached;
    assert OnceEach(s);
    KeysFit(s);
    forall k ensures k in Keys(s) <==> k in m {
      KeysAre(s, k);
    }
    assert Keys(s) == m.Keys;
  }
}
