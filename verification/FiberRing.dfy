/** A circular buffer in an array: the ready ring and the storage of channels. */
module FiberRing {

  function Wrap(x: nat, n: nat): (r: nat)
    ensures x < 2 * n ==> r < n
  {
    if x < n then x else x - n
  }

  /** `count` slots from `head` on, around the end. */
  ghost function Window<T>(a: seq<T>, head: nat, count: nat): (s: seq<T>)
    requires head < |a| && count <= |a|
    ensures |s| == count && forall i :: 0 <= i < count ==> s[i] == a[Wrap(head + i, |a|)]
  {
    seq(count, i requires 0 <= i < count => a[Wrap(head + i, |a|)])
  }

  lemma WindowPush<T>(a: seq<T>, head: nat, count: nat, x: T)
    requires head < |a| && count < |a|
    ensures Window(a[Wrap(head + count, |a|) := x], head, count + 1) == Window(a, head, count) + [x]
  {
  }

  lemma WindowPop<T>(a: seq<T>, head: nat, count: nat, blank: T)
    requires head < |a| && 0 < count <= |a|
    ensures Window(a, head, count) == [a[head]] + Window(a[head := blank], Wrap(head + 1, |a|), count - 1)
  {
  }

  lemma WrapIsMod(x: nat, n: nat)
    requires 0 < n && x < 2 * n
    ensures x % n == Wrap(x, n)
  {
    if x >= n {
      assert x == 1 * n + (x - n);
    }
  }

  class Ring<T> {
    var items: array<T>
    var head: nat
    var tail: nat
    var count: nat
    const blank: T

    ghost predicate Valid()
      reads this
    {
      && 0 < items.Length && head < items.Length && count <= items.Length
      && tail == Wrap(head + count, items.Length)
    }

    ghost function Contents(): (s: seq<T>)
      reads this, items
      requires Valid()
      ensures |s| == count
    {
      Window(items[..], head, count)
    }

    constructor (capacity: nat, blank: T)
      requires capacity > 0
      ensures Valid() && Contents() == [] && items.Length == capacity && fresh(items)
    {
      this.blank := blank;
      items := new T[capacity](_ => blank);
      head, tail, count := 0, 0, 0;
    }

    method Push(x: T)
      requires Valid() && count < items.Length
      modifies `tail, `count, items
      ensures Valid() && count == old(count) + 1
      ensures Contents() == old(Contents()) + [x]
    {
      WindowPush(items[..], head, count, x);
      items[tail] := x;
      WrapIsMod(tail + 1, items.Length);
      tail := (tail + 1) % items.Length;
      count := count + 1;
    }

    method Pop() returns (x: T)
      requires Valid() && count > 0
      modifies `head, `count, items
      ensures Valid() && count == old(count) - 1
      ensures old(Contents()) == [x] + Contents()
    {
      WindowPop(items[..], head, count, blank);
      x := items[head];
      items[head] := blank;
      WrapIsMod(head + 1, items.Length);
      head := (head + 1) % items.Length;
      count := count - 1;
    }

    /** Doubles the storage; what is buffered keeps its order. */
    method Grow()
      requires Valid()
      modifies `items, `head, `tail
      ensures Valid() && fresh(items)
      ensures items.Length == 2 * old(items.Length)
      ensures Contents() == old(Contents())
    {
      var oldCap := items.Length;
      var newItems := new T[2 * oldCap](_ => blank);
      var i := 0;
      while i < count
        modifies newItems
        invariant i <= count
        invariant forall k :: 0 <= k < i ==> newItems[k] == items[Wrap(head + k, oldCap)]
      {
        WrapIsMod(head + i, oldCap);
        newItems[i] := items[(head + i) % oldCap];
        i := i + 1;
      }
      assert Window(newItems[..], 0, count) == Contents();
      items := newItems;
      head := 0;
      tail := count;
    }
  }
}
