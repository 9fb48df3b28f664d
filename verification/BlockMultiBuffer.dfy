/** The ring allocator `BlockMultiBuffer` (include/memory_buffer.hpp); an allocation is named by its first block. */
module BlockMultiBuffers {
  import opened Wrappers

  /** How far block i lies behind the tail, going round the ring. */
  function Behind(n: nat, tail: nat, i: nat): int {
    if tail <= i then i - tail else i + n - tail
  }

  /** Allocations are marked by their size at their first block, and lie between tail and head. */
  ghost predicate RingOk(n: nat, head: nat, tail: nat, sizes: seq<nat>) {
    && |sizes| == n && head < n && tail < n
    && (forall i :: 0 <= i < n && sizes[i] > 0 ==>
          i + sizes[i] <= n && Behind(n, tail, i) + sizes[i] <= Behind(n, tail, head))
    && (forall i, j :: 0 <= i < j < n && sizes[i] > 0 && sizes[j] > 0 ==> i + sizes[i] <= j)
  }

  /** Block b belongs to the allocation that starts at i. */
  predicate Owns(sizes: seq<nat>, i: nat, b: nat) {
    i < |sizes| && sizes[i] > 0 && i <= b < i + sizes[i]
  }

  function FreeCapacity(n: nat, head: nat, tail: nat): int {
    if tail <= head then n - (head - tail) else tail - head
  }

  function ContiguousFreeCapacity(n: nat, head: nat, tail: nat): int {
    if head < tail then tail - head else n - head
  }

  function Wrapped(n: nat, i: nat): nat {
    if i == n then 0 else i
  }

  /** Where `alloc` goes: the head, or the start of the buffer. */
  function Place(n: nat, head: nat, tail: nat, nr: nat): nat {
    if ContiguousFreeCapacity(n, head, tail) <= nr then 0 else head
  }

  /** When `alloc` succeeds. */
  predicate Fits(n: nat, head: nat, tail: nat, nr: nat) {
    FreeCapacity(n, head, tail) > nr && FreeCapacity(n, Place(n, head, tail, nr), tail) > nr
  }

  /** Moving the head to the start only gives up the blocks at the end. */
  lemma {:induction false} WrapKeeps(n: nat, head: nat, tail: nat, sizes: seq<nat>, nr: nat)
    requires RingOk(n, head, tail, sizes) && FreeCapacity(n, head, tail) > nr
    requires ContiguousFreeCapacity(n, head, tail) <= nr
    ensures 0 < tail <= head && RingOk(n, 0, tail, sizes)
  {
  }

  /** A place that fits is free, and marking it keeps the ring. */
  lemma {:induction false} PlaceIsFree(n: nat, head: nat, tail: nat, sizes: seq<nat>, nr: nat)
    requires RingOk(n, head, tail, sizes) && 0 < nr
    requires FreeCapacity(n, head, tail) > nr && ContiguousFreeCapacity(n, head, tail) > nr
    ensures head + nr < n && sizes[head] == 0 && RingOk(n, head + nr, tail, sizes[head := nr])
    ensures forall i: nat, b: nat :: Owns(sizes, i, b) ==> !(head <= b < head + nr)
  {
    assert forall i :: 0 <= i < n && sizes[i] > 0 ==> i + sizes[i] <= head || head + nr <= i;
  }

  ghost function LiveOf(sizes: seq<nat>): map<nat, nat> {
    map i: nat | i < |sizes| && sizes[i] > 0 :: sizes[i]
  }

  lemma {:induction false} LiveMarked(sizes: seq<nat>, i: nat, nr: nat)
    requires i < |sizes| && sizes[i] == 0 && nr > 0
    ensures i !in LiveOf(sizes) && LiveOf(sizes[i := nr]) == LiveOf(sizes)[i := nr]
  {
  }

  lemma {:induction false} LiveCleared(sizes: seq<nat>, i: nat)
    requires i < |sizes|
    ensures LiveOf(sizes[i := 0]) == LiveOf(sizes) - {i}
  {
  }

  /** The scan of `free`. */
  method NextTail(n: nat, sizes: seq<nat>, head: nat, tail: nat) returns (t: nat)
    requires RingOk(n, head, tail, sizes)
    ensures RingOk(n, head, t, sizes) && (t == head || sizes[t] > 0)
  {
    t := tail;
    while t != head && sizes[t] == 0
      invariant RingOk(n, head, t, sizes)
      decreases Behind(n, t, head)
    {
      TailMoves(n, head, t, sizes);
      t := t + 1;
      if t == n {
        t := 0;
      }
    }
  }

  class BlockMultiBuffer {
    const nr: nat
    var idxHead: nat
    var idxTail: nat
    const sizeVec: array<nat>

    ghost predicate Valid()
      reads this, sizeVec
    {
      sizeVec.Length == nr && RingOk(nr, idxHead, idxTail, sizeVec[..])
    }

    /** The live allocations: first block and size. */
    ghost function Live(): map<nat, nat>
      reads this, sizeVec
    {
      LiveOf(sizeVec[..])
    }

    constructor (nr: nat)
      requires 0 < nr
      ensures Valid() && this.nr == nr && Live() == map[] && idxHead == idxTail == 0 && fresh(sizeVec)
    {
      this.nr := nr;
      idxHead, idxTail := 0, 0;
      sizeVec := new nat[nr](i => 0);
    }

    /** `alloc`: on success a range apart from all live ones; a failure may still move the head. */
    method Alloc(n: nat) returns (r: Option<nat>)
      requires Valid() && 0 < n
      modifies this`idxHead, sizeVec
      ensures Valid() && r.Some? == Fits(nr, old(idxHead), idxTail, n)
      ensures r.None? ==> Live() == old(Live())
                          && idxHead == if FreeCapacity(nr, old(idxHead), idxTail) <= n then old(idxHead)
                                        else Place(nr, old(idxHead), idxTail, n)
      ensures r.Some? ==> r.value == Place(nr, old(idxHead), idxTail, n) && idxHead == r.value + n
      ensures r.Some? ==> r.value + n <= nr && r.value !in old(Live()) && Live() == old(Live())[r.value := n]
      ensures r.Some? ==> forall i: nat, b: nat :: Owns(old(sizeVec[..]), i, b) ==> !(r.value <= b < r.value + n)
    {
      hide RingOk, LiveOf;
      ghost var sizes := sizeVec[..];
      InRing(nr, idxHead, idxTail, sizes);
      if FreeCapacity(nr, idxHead, idxTail) <= n {
        return None;
      }
      if ContiguousFreeCapacity(nr, idxHead, idxTail) <= n {
        WrapKeeps(nr, idxHead, idxTail, sizes, n);
        idxHead := 0;
        if FreeCapacity(nr, idxHead, idxTail) <= n {
          return None;
        }
      }
      PlaceIsFree(nr, idxHead, idxTail, sizes, n);
      LiveMarked(sizes, idxHead, n);
      r := Some(idxHead);
      sizeVec[idxHead] := n;
      assert sizeVec[..] == sizes[idxHead := n];
      idxHead := Wrapped(nr, idxHead + n);
    }

    /** `free` of a live allocation: it alone goes; the tail moves up to the next live one, or to the head. */
    method Free(idx: nat)
      requires Valid() && idx in Live()
      modifies this`idxTail, sizeVec
      ensures Valid() && Live() == old(Live()) - {idx}
      ensures idxTail < sizeVec.Length && (idxTail == idxHead || sizeVec[idxTail] > 0)
      ensures Live() == map[] ==> idxTail == idxHead
    {
      ghost var sizes := sizeVec[..];
      sizeVec[idx] := 0;
      assert sizeVec[..] == sizes[idx := 0];
      assert RingOk(nr, idxHead, idxTail, sizes[idx := 0]) by { Cleared(nr, idxHead, idxTail, sizes, idx); }
      hide RingOk;
      LiveCleared(sizes, idx);
      idxTail := NextTail(nr, sizeVec[..], idxHead, idxTail);
      InRing(nr, idxHead, idxTail, sizeVec[..]);
      if idxTail != idxHead { assert idxTail in Live(); }
    }
  }

  lemma {:induction false} InRing(n: nat, head: nat, tail: nat, sizes: seq<nat>)
    requires RingOk(n, head, tail, sizes)
    ensures head < n && tail < n && |sizes| == n
  {
  }

  lemma {:induction false} Cleared(n: nat, head: nat, tail: nat, sizes: seq<nat>, i: nat)
    requires RingOk(n, head, tail, sizes) && i < n
    ensures RingOk(n, head, tail, sizes[i := 0])
  {
  }

  /** A tail that is not on an allocation can move on by one. */
  lemma {:induction false} TailMoves(n: nat, head: nat, tail: nat, sizes: seq<nat>)
    requires RingOk(n, head, tail, sizes) && tail != head && sizes[tail] == 0
    ensures RingOk(n, head, if tail + 1 == n then 0 else tail + 1, sizes)
  {
  }

  /** Live allocations are inside the buffer and share no block. */
  lemma {:induction false} LiveApart(n: nat, head: nat, tail: nat, sizes: seq<nat>, i: nat, j: nat, b: nat)
    requires RingOk(n, head, tail, sizes) && Owns(sizes, i, b) && Owns(sizes, j, b)
    ensures i == j && b < n
  {
  }

  /** A request is served exactly when one block more than it needs is free at the head, or, with the free blocks on
      both sides of the live ones, at the start of the buffer. */
  lemma {:induction false} FitsIff(n: nat, head: nat, tail: nat, r: nat)
    requires head < n && tail < n && r > 0
    ensures Fits(n, head, tail, r) <==> if head < tail then r < tail - head else r < n - head || r < tail
  {
  }

  // ---- when an empty buffer refuses ----

  ghost predicate RefusesAll(n: nat, head: nat, tail: nat) {
    forall r: nat :: r > 0 ==> !Fits(n, head, tail, r)
  }

  /** Every request is refused exactly when the tail is one block ahead of the head, or the head is at the last
      block and the tail at one of the first two. */
  lemma {:induction false} RefusesAllIff(n: nat, head: nat, tail: nat)
    requires head < n && tail < n
    ensures RefusesAll(n, head, tail) <==> tail == head + 1 || (head == n - 1 && tail <= 1)
  {
    assert Fits(n, head, tail, 1) <==> !(tail == head + 1 || (head == n - 1 && tail <= 1));
  }

  /** With head and tail together, as `free` leaves them when nothing is live, exactly the requests that fit before
      the end or before the head are served. */
  lemma {:induction false} IdleServesIff(n: nat, at: nat, r: nat)
    requires at < n && r > 0
    ensures Fits(n, at, at, r) <==> r < n - at || r < at
  {
  }

  /** A refusal does not bring back a buffer that refuses everything; and nothing is left to free. */
  lemma {:induction false} StaysDead(n: nat, head: nat, tail: nat, r: nat)
    requires head < n && tail < n && r > 0 && RefusesAll(n, head, tail)
    ensures RefusesAll(n, if FreeCapacity(n, head, tail) <= r then head else Place(n, head, tail, r), tail)
  {
    RefusesAllIff(n, head, tail);
    RefusesAllIff(n, 0, tail);
  }

  /** An empty buffer that refuses everything from then on: one block taken and given back, then a request for all
      blocks but one. */
  method KillEmptyBuffer(n: nat) returns (b: BlockMultiBuffer)
    requires 2 < n
    ensures b.Valid() && b.nr == n && b.Live() == map[] && RefusesAll(n, b.idxHead, b.idxTail)
  {
    hide RingOk;
    b := new BlockMultiBuffer(n);
    var first := b.Alloc(1);
    b.Free(first.value);
    assert b.Live() == map[];
    var refused := b.Alloc(n - 1);
    RefusesAllIff(n, b.idxHead, b.idxTail);
  }
}
