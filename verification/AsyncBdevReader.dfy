/**
 Sequential read-ahead through a ring buffer (src/bdev_reader.hpp, src/bdev_reader.cpp). Position p of the stream
 lives in slot p mod N of the ring; until a request was waited for, its slots may hold anything.
 */
module AsyncBdevReaders {
  import opened BlockWrites
  import opened Arithmetic

  datatype Io = Io(key: nat, size: nat)

  /** The slot of a stream position. */
  function Slot(p: nat, n: nat): (s: nat)
    requires n > 0
    ensures s < n
  {
    p % n
  }

  // ---- ring arithmetic ----

  lemma {:induction false} SlotUnique(p: nat, n: nat, q: nat, r: nat)
    requires n > 0 && p == n * q + r && r < n
    ensures Slot(p, n) == r
  {
    DivUnique(p, n, q, r);
  }

  /** The turn a position is in. */
  lemma {:induction false} Turn(p: nat, n: nat) returns (q: nat)
    requires n > 0
    ensures p == n * q + Slot(p, n) && n * (q + 1) == n * q + n && n * (q + 2) == n * q + 2 * n
  {
    DivMod(p, n);
    q := p / n;
    MulSum(n, q, 1);
    MulSum(n, q, 2);
  }

  /** Going on by k without reaching the edge. */
  lemma {:induction false} SlotPlus(p: nat, k: nat, n: nat)
    requires n > 0 && Slot(p, n) + k < n
    ensures Slot(p + k, n) == Slot(p, n) + k
  {
    hide Slot;
    var q := Turn(p, n);
    SlotUnique(p + k, n, q, Slot(p, n) + k);
  }

  /** Going on by k across the edge, once. */
  lemma {:induction false} SlotWraps(p: nat, k: nat, n: nat)
    requires n > 0 && n <= Slot(p, n) + k < 2 * n
    ensures Slot(p + k, n) == Slot(p, n) + k - n
  {
    hide Slot;
    var q := Turn(p, n);
    SlotUnique(p + k, n, q + 1, Slot(p, n) + k - n);
  }

  /** `proceedOff` */
  lemma {:induction false} SlotProceeds(p: nat, k: nat, n: nat)
    requires n > 0 && k <= n
    ensures Slot(Slot(p, n) + k, n) == Slot(p + k, n)
  {
    hide Slot;
    var r := Slot(p, n) + k;
    if r < n {
      SlotPlus(p, k, n);
      SlotUnique(r, n, 0, r);
    } else {
      SlotWraps(p, k, n);
      SlotUnique(r, n, 1, r - n);
    }
  }

  /** Positions less than a whole ring apart do not share a slot. */
  lemma {:induction false} SlotsDiffer(p: nat, p': nat, n: nat)
    requires n > 0 && p < p' < p + n
    ensures Slot(p, n) != Slot(p', n)
  {
    hide Slot;
    if Slot(p, n) + (p' - p) < n {
      SlotPlus(p, p' - p, n);
    } else {
      SlotWraps(p, p' - p, n);
    }
  }

  lemma {:induction false} WholeTurn(p: nat, n: nat)
    requires n > 0
    ensures Slot(p + n, n) == Slot(p, n)
  {
    hide Slot;
    SlotWraps(p, n, n);
  }

  lemma {:induction false} WholeBlocks(x: nat, pbs: nat)
    requires pbs > 0 && x > 0 && Divides(pbs, x)
    ensures x / pbs > 0
  {
    DivMod(x, pbs);
    if x / pbs < 1 { MulMonotone(pbs, x / pbs, 0); }
  }

  /** Going round the ring keeps whole blocks. */
  lemma {:induction false} BlocksTurn(x: nat, n: nat, pbs: nat)
    requires pbs > 0 && n > 0 && x <= n && Divides(pbs, x) && Divides(pbs, n)
    ensures Divides(pbs, Slot(x, n))
  {
    hide Slot, Divides;
    if x < n {
      SlotUnique(x, n, 0, x);
    } else {
      SlotUnique(x, n, 1, 0);
      DividesProduct(pbs, 0);
    }
  }

  // ---- requests in flight ----

  function Total(q: seq<Io>): nat {
    if q == [] then 0 else q[0].size + Total(q[1..])
  }

  /** The requests fill the ring from stream position p on, none of them across the edge. */
  ghost predicate Laid(q: seq<Io>, p: nat, n: nat)
    requires n > 0
    decreases |q|
  {
    q == [] || (0 < q[0].size && Slot(p, n) + q[0].size <= n && Laid(q[1..], p + q[0].size, n))
  }

  lemma {:induction false} LaidAppend(q: seq<Io>, p: nat, n: nat, io: Io)
    requires n > 0 && Laid(q, p, n) && 0 < io.size && Slot(p + Total(q), n) + io.size <= n
    ensures Laid(q + [io], p, n) && Total(q + [io]) == Total(q) + io.size
    decreases |q|
  {
    if q == [] {
      assert (q + [io])[1..] == [];
    } else {
      LaidAppend(q[1..], p + q[0].size, n, io);
      assert (q + [io])[1..] == q[1..] + [io];
    }
  }

  /** How many slots are used, from the two offsets (`getFreeSize`). */
  function FreeSize(n: nat, aheadOff: nat, readOff: nat, isFull: bool): int {
    if isFull then 0
    else if aheadOff == readOff then n
    else if aheadOff > readOff then readOff + n - aheadOff
    else readOff - aheadOff
  }

  lemma {:induction false} FreeSizeIs(n: nat, p: nat, used: nat)
    requires n > 0 && used <= n
    ensures FreeSize(n, Slot(p + used, n), Slot(p, n), used == n) == n - used
  {
    hide Slot;
    if used < n && Slot(p, n) + used < n {
      SlotPlus(p, used, n);
    } else if used < n {
      SlotWraps(p, used, n);
    }
  }

  /** The offsets and flags of the ring fit what it holds. */
  ghost predicate RingOk(n: nat, aheadOff: nat, readOff: nat, isFull: bool, readable: nat, ioQ: seq<Io>,
                         consumed: nat) {
    var used := readable + Total(ioQ);
    && 0 < n && used <= n && readOff == Slot(consumed, n) && aheadOff == Slot(consumed + used, n)
        && isFull == (used == n)
    && readOff + readable <= n && Laid(ioQ, consumed + readable, n)
  }

  lemma {:induction false} RingConsume(n: nat, aheadOff: nat, readOff: nat, isFull: bool, readable: nat, ioQ: seq<Io>,
                                       consumed: nat, s: nat)
    requires RingOk(n, aheadOff, readOff, isFull, readable, ioQ, consumed) && 0 < s <= readable
    ensures RingOk(n, aheadOff, Slot(readOff + s, n), false, readable - s, ioQ, consumed + s)
    ensures s < readable ==> Slot(readOff + s, n) == readOff + s
  {
    hide Slot;
    SlotProceeds(consumed, s, n);
    EdgeReached(readOff, s, readable, n);
    assert consumed + s + (readable - s) == consumed + readable;
  }

  lemma {:induction false} RingPrepare(n: nat, aheadOff: nat, readOff: nat, isFull: bool, readable: nat, ioQ: seq<Io>,
                                       consumed: nat, io: Io)
    requires RingOk(n, aheadOff, readOff, isFull, readable, ioQ, consumed)
    requires 0 < io.size <= n - readable - Total(ioQ) && aheadOff + io.size <= n
    ensures var ahead' := Slot(aheadOff + io.size, n);
            RingOk(n, ahead', readOff, isFull || ahead' == readOff, readable, ioQ + [io], consumed)
    ensures Total(ioQ + [io]) == Total(ioQ) + io.size
  {
    hide Slot;
    var used := readable + Total(ioQ);
    SlotProceeds(consumed + used, io.size, n);
    LaidAppend(ioQ, consumed + readable, n, io);
    FullOnlyWhenMet(consumed, used + io.size, n);
    assert consumed + used + io.size == consumed + (used + io.size);
  }

  lemma {:induction false} RingComplete(n: nat, aheadOff: nat, readOff: nat, isFull: bool, ioQ: seq<Io>, consumed: nat)
    requires RingOk(n, aheadOff, readOff, isFull, 0, ioQ, consumed) && ioQ != []
    ensures RingOk(n, aheadOff, readOff, isFull, ioQ[0].size, ioQ[1..], consumed)
    ensures 0 < ioQ[0].size && Total(ioQ) == ioQ[0].size + Total(ioQ[1..])
  {
    hide Slot;
  }

  lemma {:induction false} RingFacts(n: nat, aheadOff: nat, readOff: nat, isFull: bool, readable: nat, ioQ: seq<Io>,
                                     consumed: nat)
    requires RingOk(n, aheadOff, readOff, isFull, readable, ioQ, consumed)
    ensures 0 < n && readable + Total(ioQ) <= n && readOff < n && aheadOff < n && readOff + readable <= n
  {
  }

  /** The n bytes of b from r on are those of the device from `at` on. */
  ghost predicate Copied(b: seq<byte>, r: nat, dev: seq<byte>, at: nat, n: nat) {
    r + n <= |b| && at + n <= |dev| && b[r..r + n] == dev[at..at + n]
  }

  lemma {:induction false} CopiedSplit(b: seq<byte>, r: nat, dev: seq<byte>, at: nat, n: nat, s: nat, r': nat)
    requires Copied(b, r, dev, at, n) && s <= n && (s < n ==> r' == r + s) && r' <= |b|
    ensures r + s <= |b| && at + s <= |dev| && b[r..r + s] == dev[at..at + s] && Copied(b, r', dev, at + s, n - s)
  {
    assert b[r..r + s] == b[r..r + n][..s] && dev[at..at + s] == dev[at..at + n][..s];
    assert b[r + s..r + n] == b[r..r + n][s..] && dev[at + s..at + n] == dev[at..at + n][s..];
  }

  lemma {:induction false} AheadIs(n: nat, c: nat, p: nat)
    requires n > 0 && c <= p < c + n
    ensures var j, r := Slot(p, n), Slot(c, n);
            (if r <= j then j - r else j + n - r) == p - c
  {
    hide Slot;
    if Slot(c, n) + (p - c) < n {
      SlotPlus(c, p - c, n);
    } else {
      SlotWraps(c, p - c, n);
    }
  }

  class AsyncBdevReader {
    const dev: seq<byte>            // contents of the device
    const pbs: nat
    const devTotal: nat
    const maxIoSize: nat
    const queueSize: nat
    const buf: array<byte>
    var aheadOff: nat
    var readOff: nat
    var isFull: bool
    var readableSize: nat
    var devOffset: nat
    var key: nat
    var ioQ: seq<Io>
    const start: nat                // first byte to read
    ghost var consumed: nat         // bytes delivered so far

    /** Every byte of the ring in use is readable or in flight, and readable bytes are the device's. */
    ghost predicate Valid()
      reads this, buf
    {
      var n := buf.Length;
      && 0 < maxIoSize <= n && 0 < queueSize && devTotal == |dev|
      && RingOk(n, aheadOff, readOff, isFull, readableSize, ioQ, consumed)
      && devOffset == start + consumed + readableSize + Total(ioQ) <= devTotal
      && Copied(buf[..], readOff, dev, start + consumed, readableSize)
      && 0 < pbs && Divides(pbs, maxIoSize) && Divides(pbs, n) && Divides(pbs, devTotal) && Divides(pbs, aheadOff)
          && Divides(pbs, devOffset)
    }

    /** The conditions are those the source verifies, and that the offset lies on a block of the device. */
    constructor (dev: seq<byte>, pbs: nat, offset: nat, bufferSize: nat, maxIoSize: nat)
      requires 0 < pbs && maxIoSize <= bufferSize && 0 < maxIoSize && 0 < |dev|
      requires Divides(pbs, |dev|) && Divides(pbs, maxIoSize) && Divides(pbs, bufferSize)
      requires offset <= |dev| && Divides(pbs, offset)
      ensures Valid() && fresh(buf) && this.dev == dev && start == offset && consumed == 0
    {
      this.dev, this.pbs, devTotal, this.maxIoSize := dev, pbs, |dev|, maxIoSize;
      queueSize := if bufferSize / pbs < 1024 then bufferSize / pbs else 1024;
      buf := new byte[bufferSize];
      aheadOff, readOff, isFull, readableSize := 0, 0, false, 0;
      devOffset, key, ioQ, start, consumed := offset, 1, [], offset, 0;
      new;
      SlotUnique(0, buf.Length, 0, 0);
      WholeBlocks(bufferSize, pbs);
      ReadAhead();
    }

    function GetFreeSize(): int
      reads this
    {
      FreeSize(buf.Length, aheadOff, readOff, isFull)
    }

    function GetAvailableSize(): int
      reads this
    {
      if GetFreeSize() < buf.Length - aheadOff then GetFreeSize() else buf.Length - aheadOff
    }

    /** `decideIoSize`: 0 when there is no room for a whole request or the device ends. */
    function DecideIoSize(): int
      reads this
    {
      if GetFreeSize() < maxIoSize then 0
      else
        var s := if maxIoSize < GetAvailableSize() then maxIoSize else GetAvailableSize();
        if s < devTotal - devOffset then s else devTotal - devOffset
    }

    /** The size is positive unless there is no room for a request or the device ends, it is a whole number of
        blocks, and it is the full size unless the request ends at the edge or at the end of the device. */
    lemma {:induction false} IoSizeFacts()
      requires Valid()
      ensures GetFreeSize() == buf.Length - readableSize - Total(ioQ)
      ensures 0 <= DecideIoSize() <= GetFreeSize() && aheadOff + DecideIoSize() <= buf.Length
      ensures DecideIoSize() <= devTotal - devOffset && Divides(pbs, DecideIoSize())
      ensures DecideIoSize() == 0 <==> GetFreeSize() < maxIoSize || devOffset == devTotal
      ensures DecideIoSize() <= maxIoSize
      ensures 0 < DecideIoSize() < maxIoSize ==>
                aheadOff + DecideIoSize() == buf.Length || devOffset + DecideIoSize() == devTotal
    {
      hide Slot;
      FreeSizeIs(buf.Length, consumed, readableSize + Total(ioQ));
      DividesSum(pbs, buf.Length, aheadOff);
      DividesSum(pbs, devTotal, devOffset);
      assert Divides(pbs, 0);
    }

    /** `prepareAheadIo`: at most one more request; none only if the aio queue is full, the ring has no room for
        one, or the device ends. */
    method PrepareAheadIo() returns (more: bool)
      requires Valid()
      modifies this`aheadOff, this`isFull, this`devOffset, this`key, this`ioQ
      ensures Valid()
      ensures more ==> |ioQ| == |old(ioQ)| + 1 && devOffset > old(devOffset)
      ensures !more ==> ioQ == old(ioQ) && devOffset == old(devOffset)
      ensures !more ==> |ioQ| >= queueSize || devOffset == devTotal
                        || buf.Length - readableSize - Total(ioQ) < maxIoSize
    {
      if |ioQ| >= queueSize {
        if * {
          return false;
        }
      }
      IoSizeFacts();
      var ioSize := DecideIoSize();
      if ioSize == 0 {
        return false;
      }
      AddIo(ioSize);
      return true;
    }

    /** `RingBufferForSeqRead::prepare` and the request. */
    method AddIo(ioSize: nat)
      requires Valid() && 0 < ioSize <= buf.Length - readableSize - Total(ioQ) && aheadOff + ioSize <= buf.Length
      requires devOffset + ioSize <= devTotal && Divides(pbs, ioSize)
      modifies this`aheadOff, this`isFull, this`devOffset, this`key, this`ioQ
      ensures Valid() && ioQ == old(ioQ) + [Io(old(key), ioSize)] && devOffset == old(devOffset) + ioSize
    {
      hide RingOk, Divides, Slot, Total;
      var n := buf.Length;
      RingFacts(n, aheadOff, readOff, isFull, readableSize, ioQ, consumed);
      RingPrepare(n, aheadOff, readOff, isFull, readableSize, ioQ, consumed, Io(key, ioSize));
      DividesSum(pbs, aheadOff, ioSize);
      BlocksTurn(aheadOff + ioSize, n, pbs);
      DividesSum(pbs, devOffset, ioSize);
      aheadOff := Slot(aheadOff + ioSize, n);
      if aheadOff == readOff {
        isFull := true;
      }
      devOffset := devOffset + ioSize;
      ioQ := ioQ + [Io(key, ioSize)];
      key := key + 1;
    }

    method ReadAhead()
      requires Valid()
      modifies this`aheadOff, this`isFull, this`devOffset, this`key, this`ioQ
      ensures Valid() && |ioQ| >= |old(ioQ)|
      ensures |ioQ| >= queueSize || buf.Length - readableSize - Total(ioQ) < maxIoSize || devOffset == devTotal
    {
      var more := true;
      while more
        invariant Valid() && |ioQ| >= |old(ioQ)|
        invariant !more ==> |ioQ| >= queueSize || devOffset == devTotal
                            || buf.Length - readableSize - Total(ioQ) < maxIoSize
        decreases more, devTotal - devOffset
      {
        more := PrepareAheadIo();
      }
    }

    /** How far slot j is ahead of the reader, and whether it belongs to a request in flight. */
    function Ahead(j: nat): int
      reads this
    {
      if readOff <= j then j - readOff else j + buf.Length - readOff
    }

    predicate InFlight(j: nat)
      reads this
    {
      readableSize <= Ahead(j) < readableSize + Total(ioQ)
    }

    /** A slot in flight is that of a stream position requested and not yet readable, and conversely. */
    lemma {:induction false} InFlightIff(j: nat, p: nat)
      requires Valid() && consumed <= p < consumed + buf.Length && j == Slot(p, buf.Length)
      ensures InFlight(j) <==> consumed + readableSize <= p < consumed + readableSize + Total(ioQ)
    {
      hide Slot, Divides;
      AheadIs(buf.Length, consumed, p);
    }

    /** Until a request was waited for, the kernel may put anything in its slots. */
    method Scramble()
      requires Valid()
      modifies buf
      ensures Valid() && forall j :: 0 <= j < buf.Length && !InFlight(j) ==> buf[j] == old(buf[j])
    {
      hide Slot, Divides;
      assert |buf[..]| == buf.Length;
      var junk: seq<byte> :| |junk| == buf.Length;
      forall j | 0 <= j < buf.Length && InFlight(j) {
        buf[j] := junk[j];
      }
      assert buf[..][readOff..readOff + readableSize] == old(buf[..])[readOff..readOff + readableSize];
    }

    /** The oldest request's bytes have arrived. */
    method Land(off: nat, bytes: seq<byte>)
      requires off + |bytes| <= buf.Length
      modifies buf
      ensures buf[off..off + |bytes|] == bytes
      ensures forall j :: 0 <= j < buf.Length && !(off <= j < off + |bytes|) ==> buf[j] == old(buf[j])
    {
      for i := 0 to |bytes|
        invariant buf[off..off + i] == bytes[..i]
        invariant forall j :: 0 <= j < buf.Length && !(off <= j < off + i) ==> buf[j] == old(buf[j])
      {
        buf[off + i] := bytes[i];
      }
    }

    /** `waitForIo` and `complete`, with nothing readable before: the oldest request's bytes are there now. */
    method WaitForIo()
      requires Valid() && ioQ != [] && readableSize == 0
      modifies this`ioQ, this`readableSize, buf
      ensures Valid() && readableSize == old(ioQ)[0].size > 0 && ioQ == old(ioQ)[1..]
      ensures forall j :: 0 <= j < buf.Length && !old(InFlight(j)) ==> buf[j] == old(buf[j])
    {
      hide RingOk, Divides, Slot, Total;
      Scramble();
      RingFacts(buf.Length, aheadOff, readOff, isFull, readableSize, ioQ, consumed);
      RingComplete(buf.Length, aheadOff, readOff, isFull, ioQ, consumed);
      RingFacts(buf.Length, aheadOff, readOff, isFull, ioQ[0].size, ioQ[1..], consumed);
      var size, at := ioQ[0].size, devOffset - Total(ioQ);
      Land(readOff, dev[at..at + size]);
      assert buf[..][readOff..readOff + size] == dev[at..at + size];
      ioQ := ioQ[1..];
      readableSize := size;
    }

    /** `prepareAvailableData`: fails exactly when everything up to the end of the device was delivered. */
    method PrepareAvailableData() returns (ok: bool)
      requires Valid()
      modifies this`aheadOff, this`isFull, this`devOffset, this`key, this`ioQ, this`readableSize, buf
      ensures Valid() && ok == (start + consumed < devTotal) && (ok ==> readableSize > 0)
    {
      hide Slot, Divides;
      if readableSize > 0 {
        return true;
      }
      if ioQ == [] {
        ReadAhead();
      }
      if ioQ == [] {
        return false;
      }
      WaitForIo();
      return true;
    }

    /** `consume`: one copy, which does not cross the edge of the ring. */
    method Consume(size: nat) returns (out: seq<byte>)
      requires Valid() && 0 < size && 0 < readableSize
      modifies this`readOff, this`readableSize, this`isFull, this`consumed
      ensures Valid() && 0 < |out| <= size && consumed == old(consumed) + |out| && start + consumed <= |dev|
      ensures out == dev[start + old(consumed)..start + consumed]
    {
      hide RingOk, Divides, Copied, Slot, Total;
      var s := if size < readableSize then size else readableSize;
      RingFacts(buf.Length, aheadOff, readOff, isFull, readableSize, ioQ, consumed);
      RingConsume(buf.Length, aheadOff, readOff, isFull, readableSize, ioQ, consumed, s);
      out := buf[readOff..readOff + s];
      CopiedSplit(buf[..], readOff, dev, start + consumed, readableSize, s, Slot(readOff + s, buf.Length));
      assert out == buf[..][readOff..readOff + s];
      readOff := Slot(readOff + s, buf.Length);
      readableSize := readableSize - s;
      if isFull {
        isFull := false;
      }
      consumed := consumed + s;
    }

    /** `read`: the next `size` bytes of the device, or as many as are left before the failure. */
    method Read(size: nat) returns (data: seq<byte>, ok: bool)
      requires Valid()
      modifies this`aheadOff, this`readOff, this`isFull, this`devOffset, this`key, this`ioQ, this`readableSize,
          this`consumed, buf
      ensures Valid() && ok == (start + old(consumed) + size <= devTotal)
      ensures old(consumed) <= consumed && start + consumed <= |dev|
      ensures data == dev[start + old(consumed)..start + consumed]
      ensures if ok then |data| == size else start + consumed == devTotal
    {
      hide RingOk, Divides, Slot, Copied;
      data := [];
      var left := size;
      while left > 0
        invariant Valid() && consumed == old(consumed) + size - left && 0 <= left <= size && start + consumed <= |dev|
        invariant data == dev[start + old(consumed)..start + consumed]
        decreases left
      {
        var more := PrepareAvailableData();
        if !more {
          return data, false;
        }
        var s := Consume(left);
        data, left := data + s, left - |s|;
        ReadAhead();
      }
      return data, true;
    }
  }

  /** Reading up to the edge, and no further, starts again at slot 0. */
  lemma {:induction false} EdgeReached(readOff: nat, s: nat, readable: nat, n: nat)
    requires s <= readable && readOff + readable <= n && n > 0 && readOff < n
    ensures var r := Slot(readOff + s, n); r + (readable - s) <= n && (s < readable ==> r == readOff + s)
  {
    hide Slot;
    if readOff + s < n {
      SlotUnique(readOff + s, n, 0, readOff + s);
    } else {
      SlotUnique(n, n, 1, 0);
    }
  }

  /** After a request was added, the offsets meet exactly when the ring is full. */
  lemma {:induction false} FullOnlyWhenMet(p: nat, used: nat, n: nat)
    requires n > 0 && 0 < used <= n
    ensures Slot(p + used, n) == Slot(p, n) <==> used == n
  {
    if used == n {
      WholeTurn(p, n);
    } else {
      SlotsDiffer(p, p + used, n);
    }
  }
}
