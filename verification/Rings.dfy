/** Index arithmetic of circular buffers. */
module Rings {
  import opened Basics

  /** The slot that position x of the unrolled buffer falls on. */
  function Slot(x: nat, n: nat): (r: nat)
    requires n > 0 && x <= 2 * n
    ensures r < n
  {
    if x < n then x else if x < 2 * n then x - n else 0
  }

  lemma SlotIsRemainder(x: nat, n: nat)
    requires n > 0 && x <= 2 * n
    ensures Slot(x, n) == x % n
  {
    var q: int := if x < n then 0 else if x < 2 * n then 1 else 2;
    DivisionIs(x, n, q, Slot(x, n));
  }

  /** Distance from the read slot determines the slot. */
  lemma SlotsDiffer(readFrom: nat, i: nat, j: nat, n: nat)
    requires readFrom < n && 0 < i < j <= n
    ensures Slot(readFrom + i, n) != Slot(readFrom + j, n)
  {
  }
}
