/** Positions of a circular buffer of `cap` slots, without modulo arithmetic. */
module Probing {

  /** The slot d steps after `start`. */
  function Slot(start: nat, d: nat, cap: nat): (i: nat)
    requires start < cap && d < cap
    ensures i < cap
  {
    if start + d < cap then start + d else start + d - cap
  }

  /** How many steps slot i is after `start`. */
  function Dist(start: nat, i: nat, cap: nat): (d: nat)
    requires start < cap && i < cap
    ensures d < cap && Slot(start, d, cap) == i
  {
    if i >= start then i - start else i + cap - start
  }

  lemma SlotOfDist(start: nat, d: nat, cap: nat)
    requires start < cap && d < cap
    ensures Dist(start, Slot(start, d, cap), cap) == d
  {
  }

  /** The next slot, as the source computes it. */
  lemma NextSlot(start: nat, d: nat, cap: nat)
    requires start < cap && d + 1 < cap
    ensures (Slot(start, d, cap) + 1) % cap == Slot(start, d + 1, cap)
  {
    var i := Slot(start, d, cap);
    if i + 1 == cap {
      assert (i + 1) % cap == 0;
    } else {
      SmallMod(i + 1, cap);
    }
  }

  lemma SmallMod(i: nat, cap: nat)
    requires i < cap
    ensures i % cap == i
  {
  }
}
