/**
 * The ring step shared by the transmit ring, the packet rings and the UART rings
 * (BUFFER_PUT and BUFFER_GET of include/buffer_utils.h), with the capacity as a parameter.
 */
module Rings {
  /** The three index fields a ring keeps beside its storage. */
  datatype Ring = Ring(start: nat, end: nat, size: nat)

  /** The index reached `k` steps after `i`, wrapping once at `cap`. */
  function Advance(i: nat, k: nat, cap: nat): (j: nat)
    requires i < cap && k <= cap
    ensures j < cap
  {
    if i + k < cap then i + k else i + k - cap
  }

  predicate Valid(r: Ring, cap: nat) {
    r.start < cap && r.size <= cap && r.end == Advance(r.start, r.size, cap)
  }

  /** BUFFER_PUT: advance `end`, wrap it, count one more. */
  function Put(r: Ring, cap: nat): Ring {
    Ring(r.start, if r.end + 1 >= cap then 0 else r.end + 1, r.size + 1)
  }

  /** BUFFER_GET: advance `start`, wrap it, count one less. */
  function Get(r: Ring, cap: nat): Ring
    requires r.size > 0
  {
    Ring(if r.start + 1 >= cap then 0 else r.start + 1, r.end, r.size - 1)
  }

  /** The occupied slots, oldest first: `size` slots from `start`, modulo the capacity. */
  function Slots(r: Ring, cap: nat): (s: seq<nat>)
    requires Valid(r, cap)
    ensures |s| == r.size
    ensures forall k :: 0 <= k < |s| ==> s[k] == Advance(r.start, k, cap)
  {
    seq(r.size, k requires 0 <= k < r.size => Advance(r.start, k, cap))
  }

  /** What the occupied slots of `buffer` hold, oldest first. */
  function Contents<T>(buffer: seq<T>, r: Ring, cap: nat): (s: seq<T>)
    requires Valid(r, cap) && |buffer| == cap
    ensures |s| == r.size
    ensures forall k :: 0 <= k < |s| ==> s[k] == buffer[Advance(r.start, k, cap)]
  {
    seq(r.size, k requires 0 <= k < r.size => buffer[Advance(r.start, k, cap)])
  }

  /** A put on a ring that is not full occupies the slot at `end`, which was free, and no other. */
  lemma PutSlots(r: Ring, cap: nat)
    requires Valid(r, cap) && r.size < cap
    ensures Valid(Put(r, cap), cap)
    ensures r.end !in Slots(r, cap)
    ensures Slots(Put(r, cap), cap) == Slots(r, cap) + [r.end]
  {
  }

  /** A get releases the oldest slot and leaves the rest in order. */
  lemma GetSlots(r: Ring, cap: nat)
    requires Valid(r, cap) && r.size > 0
    ensures Valid(Get(r, cap), cap)
    ensures Slots(r, cap) == [r.start] + Slots(Get(r, cap), cap)
  {
    var g := Get(r, cap);
    assert Valid(g, cap);
    var s := [r.start] + Slots(g, cap);
    forall k | 0 <= k < r.size
      ensures Slots(r, cap)[k] == s[k]
    {
    }
  }

  /** Writing at `end` and putting appends to the contents; nothing already queued is touched. */
  lemma PutContents<T>(buffer: seq<T>, r: Ring, cap: nat, x: T)
    requires Valid(r, cap) && |buffer| == cap && r.size < cap
    ensures Valid(Put(r, cap), cap)
    ensures Contents(buffer[r.end := x], Put(r, cap), cap) == Contents(buffer, r, cap) + [x]
  {
    PutSlots(r, cap);
    var c := Contents(buffer[r.end := x], Put(r, cap), cap);
    forall k | 0 <= k < r.size
      ensures c[k] == Contents(buffer, r, cap)[k]
    {
      assert Slots(r, cap)[k] != r.end;
    }
  }

  /** Reading at `start` and getting removes the head of the contents. */
  lemma GetContents<T>(buffer: seq<T>, r: Ring, cap: nat)
    requires Valid(r, cap) && |buffer| == cap && r.size > 0
    ensures Valid(Get(r, cap), cap)
    ensures Contents(buffer, r, cap) == [buffer[r.start]] + Contents(buffer, Get(r, cap), cap)
  {
    GetSlots(r, cap);
    var tail := [buffer[r.start]] + Contents(buffer, Get(r, cap), cap);
    forall k | 0 <= k < r.size
      ensures Contents(buffer, r, cap)[k] == tail[k]
    {
      assert Slots(r, cap)[k] == ([r.start] + Slots(Get(r, cap), cap))[k];
    }
  }
}
