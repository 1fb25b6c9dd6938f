/**
 * Circular doubly linked lists ("rings") as sequences. A ring is kept as
 * the sequence of its members starting at the head, so a member's forward
 * and backward links are the neighbouring positions, wrapping around at
 * the ends. An empty sequence is a null list head.
 */
module Rings {

  /** Position of the member a forward link points to. */
  function NextIndex(n: nat, k: nat): (j: nat)
    requires k < n
    ensures j < n
  {
    if k + 1 == n then 0 else k + 1
  }

  /** Position of the member a backward link points to. */
  function PrevIndex(n: nat, k: nat): (j: nat)
    requires k < n
    ensures j < n
  {
    if k == 0 then n - 1 else k - 1
  }

  /** Forward link of the member at position k. */
  function Next<T>(ring: seq<T>, k: nat): T
    requires k < |ring|
  {
    ring[NextIndex(|ring|, k)]
  }

  /** Backward link of the member at position k. */
  function Prev<T>(ring: seq<T>, k: nat): T
    requires k < |ring|
  {
    ring[PrevIndex(|ring|, k)]
  }

  /** No member occurs twice. */
  predicate Distinct<T(==)>(s: seq<T>)
  {
    forall i, j :: 0 <= i < j < |s| ==> s[i] != s[j]
  }

  /** Following a forward link and then a backward link returns to the start, and conversely. */
  lemma LinksInverse(n: nat, k: nat)
    requires k < n
    ensures PrevIndex(n, NextIndex(n, k)) == k
    ensures NextIndex(n, PrevIndex(n, k)) == k
  {
  }

  /**
   * Inserting `x` at the tail of a ring, just before its head, is the
   * pointer surgery of a doubly linked circular list: x points forward to
   * the head and back to the old tail, the old tail points forward to x,
   * the head points back to x, and every other link is unchanged. Inserted
   * into an empty ring, x links to itself.
   */
  lemma AppendAtTail<T>(ring: seq<T>, x: T)
    ensures var r := ring + [x];
      && r[0] == (if |ring| == 0 then x else ring[0])
      && Next(r, |ring|) == r[0]
      && Prev(r, |ring|) == (if |ring| == 0 then x else ring[|ring| - 1])
      && (|ring| > 0 ==> Next(r, |ring| - 1) == x && Prev(r, 0) == x)
      && (forall k :: 0 <= k < |ring| - 1 ==> Next(r, k) == Next(ring, k))
      && (forall k :: 0 < k < |ring| ==> Prev(r, k) == Prev(ring, k))
  {
  }
}
