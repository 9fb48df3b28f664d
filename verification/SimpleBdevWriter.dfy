/**
 `SimpleBdevWriter` of src/bdev_writer.hpp, the plain FIFO writer, and its comparison with the
 asynchronous one over every sequence of calls.
 */
module SimpleBdevWriters {
  import opened BlockWrites
  import opened RangeUtil
  import opened WriterState
  import opened WriterOps
  import opened WriterMachine
  import opened AsyncBdevWriters

  class SimpleBdevWriter {
    const bdevSizeLb: nat
    var dev: Device
    var ioQ: seq<Write>
    var stat: Stats

    ghost var dev0: Device
    ghost var done: seq<Write>   // writes and discards in the order they reached the device

    ghost predicate Valid()
      reads this
    {
      && IsFifoResult(done, dev0, dev)
      && (forall i :: 0 <= i < |ioQ| ==> |ioQ[i].data| % LBS == 0)
      && LBS * (stat.normalLb + stat.discardLb) == LBS * stat.writtenLb + SumLog(ioQ, 0, |ioQ|)
      && stat.overwrittenLb == 0
    }

    constructor (bdevSizeLb: nat, d: Device)
      ensures Valid() && this.bdevSizeLb == bdevSizeLb && dev == d && dev0 == d && ioQ == [] && done == []
      ensures stat == Stats(0, 0, 0, 0, 0)
    {
      this.bdevSizeLb, dev, ioQ, stat := bdevSizeLb, d, [], Stats(0, 0, 0, 0, 0);
      dev0, done := d, [];
    }

    predicate IsClipped(offLb: nat, sizeLb: nat) {
      offLb + sizeLb > bdevSizeLb
    }

    method Prepare(offLb: nat, sizeLb: nat, addr: nat, data: seq<byte>) returns (ok: bool)
      requires Valid() && |data| == LBS * sizeLb
      modifies this`ioQ, this`stat
      ensures Valid() && ok == !IsClipped(offLb, sizeLb)
      ensures ioQ == if ok then old(ioQ) + [Write(LBS * offLb, addr, data)] else old(ioQ)
      ensures stat == if ok then old(stat).(normalLb := old(stat.normalLb) + sizeLb)
                      else old(stat).(clippedLb := old(stat.clippedLb) + sizeLb)
    {
      if IsClipped(offLb, sizeLb) {
        stat := stat.(clippedLb := stat.clippedLb + sizeLb);
        return false;
      }
      SumLogSame(ioQ, ioQ + [Write(LBS * offLb, addr, data)], 0, |ioQ|);
      ioQ := ioQ + [Write(LBS * offLb, addr, data)];
      stat := stat.(normalLb := stat.normalLb + sizeLb);
      return true;
    }

    /** `submit`: every queued write reaches the device, in order. */
    method Submit()
      requires Valid()
      modifies this`dev, this`ioQ, this`stat, this`done
      ensures Valid() && ioQ == [] && done == old(done + ioQ)
      ensures stat == old(stat).(writtenLb := stat.writtenLb)
      ensures stat.normalLb + stat.discardLb == stat.writtenLb
    {
      hide IsFifoResult, Put, SumLog;
      while ioQ != []
        invariant Valid() && done + ioQ == old(done + ioQ) && stat == old(stat).(writtenLb := stat.writtenLb)
        decreases |ioQ|
      {
        ghost var was := ioQ;
        FifoAppend(done, ioQ[0], dev0, dev);
        FirstDone(ioQ);
        dev := Put(dev, ioQ[0]);
        stat := stat.(writtenLb := stat.writtenLb + |ioQ[0].data| / LBS);
        done := done + [ioQ[0]];
        ioQ := ioQ[1..];
        assert was == [was[0]] + ioQ;
      }
      NoneLeft(ioQ);
    }

    /** `discard` goes to the device at once, before the writes still queued. */
    method Discard(offLb: nat, sizeLb: nat, data: seq<byte>) returns (ok: bool)
      requires Valid() && |data| == LBS * sizeLb
      modifies this`dev, this`stat, this`done
      ensures Valid() && ok == !IsClipped(offLb, sizeLb)
      ensures done == if ok then old(done) + [Write(LBS * offLb, 0, data)] else old(done)
      ensures stat == if ok then old(stat).(discardLb := old(stat.discardLb) + sizeLb,
          writtenLb := old(stat.writtenLb) + sizeLb)
                      else old(stat).(clippedLb := old(stat.clippedLb) + sizeLb)
    {
      if IsClipped(offLb, sizeLb) {
        stat := stat.(clippedLb := stat.clippedLb + sizeLb);
        return false;
      }
      FifoAppend(done, Write(LBS * offLb, 0, data), dev0, dev);
      dev := Put(dev, Write(LBS * offLb, 0, data));
      done := done + [Write(LBS * offLb, 0, data)];
      stat := stat.(discardLb := stat.discardLb + sizeLb, writtenLb := stat.writtenLb + sizeLb);
      return true;
    }
  }

  lemma {:induction false} SumLogShift(log: seq<Write>, hi: nat)
    requires 1 <= hi <= |log|
    ensures SumLog(log, 1, hi) == SumLog(log[1..], 0, hi - 1)
  {
    if 1 < hi { SumLogShift(log, hi - 1); }
  }

  lemma {:induction false} FirstDone(ioQ: seq<Write>)
    requires ioQ != [] && |ioQ[0].data| % LBS == 0
    ensures SumLog(ioQ, 0, |ioQ|) == LBS * (|ioQ[0].data| / LBS) + SumLog(ioQ[1..], 0, |ioQ| - 1)
  {
    SumLogFront(ioQ, 0, |ioQ|);
    SumLogShift(ioQ, |ioQ|);
  }

  lemma {:induction false} NoneLeft(ioQ: seq<Write>)
    ensures ioQ == [] ==> SumLog(ioQ, 0, |ioQ|) == 0
  {
  }

  // ---- a discard overtakes the queued writes ----

  /** A discard done before the queued writes instead of after them: harmless exactly when they leave
      its bytes as it would. */
  ghost predicate EarlyHarmless(queued: seq<Write>, w: Write) {
    MergeHarmless([w] + queued, 0, w)
  }

  /** A write moved in front of the ones queued before it shows, byte by byte, as if moved back, if and
      only if that is harmless. */
  lemma {:induction false} EarlyDiscardIffHarmless(done: seq<Write>, queued: seq<Write>, w: Write, d: Device)
    ensures SameBytes(done + [w] + queued, done + queued + [w], d) <==> EarlyHarmless(queued, w)
  {
    var early, late := done + [w] + queued, done + queued + [w];
    if EarlyHarmless(queued, w) {
      forall a: nat ensures Byte(early, |early|, a, d) == Byte(late, |late|, a, d) {
        MovedByte(done, queued, w, a, d);
        var j := FindLast([w] + queued, 0, |queued| + 1, a);
        if 0 < j { assert LastAfter([w] + queued, 0, j, a); }
      }
    }
    if SameBytes(early, late, d) {
      forall j: nat, a: nat | LastAfter([w] + queued, 0, j, a) && Covers(w, a)
        ensures ([w] + queued)[j].data[a - ([w] + queued)[j].offset] == w.data[a - w.offset]
      {
        MovedByte(done, queued, w, a, d);
        assert Byte(early, |early|, a, d) == Byte(late, |late|, a, d);
        assert FindLast([w] + queued, 0, |queued| + 1, a) == j;
      }
    }
  }

  lemma {:induction false} MovedByte(done: seq<Write>, queued: seq<Write>, w: Write, a: nat, d: Device)
    ensures var early, late, ws := done + [w] + queued, done + queued + [w], [w] + queued;
            var j := FindLast(ws, 0, |ws|, a);
            && Byte(early, |early|, a, d) == (if 0 < j then ws[j].data[a - ws[j].offset]
                                              else if Covers(w, a) then w.data[a - w.offset]
                                                  else Byte(done, |done|, a, d))
            && Byte(late, |late|, a, d) == (if Covers(w, a) then w.data[a - w.offset]
                                            else if 0 < j then ws[j].data[a - ws[j].offset]
                                                else Byte(done, |done|, a, d))
  {
    var early, late, ws := done + [w] + queued, done + queued + [w], [w] + queued;
    var j, n := FindLast(ws, 0, |ws|, a), |done|;
    assert early == done + ws;
    ByteOfPrefix(done, ws, n, a, d);
    ByteOfPrefix(done, queued + [w], n, a, d);
    assert late == done + (queued + [w]);
    forall k | n + j < k < |early| ensures !Covers(early[k], a) { assert early[k] == ws[k - n]; }
    forall k | n + j <= k < |late| - 1 ensures !Covers(late[k], a) { assert late[k] == ws[k - n + 1]; }
    if 0 < j {
      ByteIs(early, |early|, a, d, n + j);
      if !Covers(w, a) { ByteIs(late, |late|, a, d, n + j - 1); }
    } else {
      ByteSkip(early, n + 1, |early|, a, d);
      if !Covers(w, a) { ByteSkip(late, n, |late|, a, d); }
    }
  }

  // ---- every sequence of calls ----

  datatype Call =
    | Prepare(offLb: nat, sizeLb: nat, addr: nat, data: seq<byte>)
    | Discard(offLb: nat, sizeLb: nat, data: seq<byte>)
    | Submit
    | WaitForAll

  predicate WellFormed(c: Call) {
    match c
    case Prepare(_, sizeLb, _, data) => 0 < sizeLb && |data| == LBS * sizeLb < TWO32
    case Discard(_, sizeLb, data) => |data| == LBS * sizeLb
    case _ => true
  }

  function Clipped(c: Call, bdevSizeLb: nat): bool {
    (c.Prepare? || c.Discard?) && c.offLb + c.sizeLb > bdevSizeLb
  }

  /** The asynchronous writer's fetched IOs after a call. */
  function Fetched(seg: seq<Write>, c: Call): seq<Write> {
    match c
    case Prepare(offLb, sizeLb, addr, data) =>
      var w := Write(LBS * offLb, addr, data);
      if MergesInto(seg, w) then seg[0 := Merged(seg[0], w)] else seg + [w]
    case _ => []
  }

  predicate MergesInto(seg: seq<Write>, w: Write) {
    seg != [] && |seg[0].data| + |w.data| <= MEBI && CanMerge(seg[0], w)
  }

  /** The plain writer's queue after a call. */
  function Queued(queue: seq<Write>, c: Call): seq<Write> {
    match c
    case Prepare(offLb, sizeLb, addr, data) => queue + [Write(LBS * offLb, addr, data)]
    case Submit => []
    case _ => queue
  }

  /** What a caller can see before the call: no merge and no discard overtakes a write it disturbs. */
  ghost predicate Harmless(seg: seq<Write>, queue: seq<Write>, c: Call) {
    match c
    case Prepare(offLb, sizeLb, addr, data) =>
      var w := Write(LBS * offLb, addr, data);
      MergesInto(seg, w) ==> MergeHarmless(seg, 0, w)
    case Discard(offLb, sizeLb, data) => EarlyHarmless(queue, Write(LBS * offLb, 0, data))
    case _ => true
  }

  ghost predicate AllHarmless(seg: seq<Write>, queue: seq<Write>, calls: seq<Call>, bdevSizeLb: nat)
    decreases |calls|
  {
    calls == [] ||
    if Clipped(calls[0], bdevSizeLb) then AllHarmless(seg, queue, calls[1..], bdevSizeLb)
    else Harmless(seg, queue, calls[0])
         && AllHarmless(Fetched(seg, calls[0]), Queued(queue, calls[0]), calls[1..], bdevSizeLb)
  }

  // ---- buffers that are still in use ----

  function WriteOf(c: Call): Write
    requires c.Prepare?
  {
    Write(LBS * c.offLb, c.addr, c.data)
  }

  /** The buffers handed over since the asynchronous writer was last drained, as far as the caller can tell. */
  function Held(held: seq<Write>, c: Call, bdevSizeLb: nat): seq<Write> {
    if Clipped(c, bdevSizeLb) then held
    else match c
      case Prepare(_, _, _, _) => held + [WriteOf(c)]
      case Submit => held
      case _ => []
  }

  predicate FreeOf(held: seq<Write>, w: Write) {
    forall i :: 0 <= i < |held| ==> Compatible(held[i], w)
  }

  /** No buffer is refilled between its `prepare` and the next drain. */
  predicate BuffersKept(held: seq<Write>, calls: seq<Call>, bdevSizeLb: nat)
    decreases |calls|
  {
    calls == [] ||
    ((calls[0].Prepare? ==> FreeOf(held, WriteOf(calls[0])))
     && BuffersKept(Held(held, calls[0], bdevSizeLb), calls[1..], bdevSizeLb))
  }

  /** What is free of the buffers handed over is free of the buffers of the queued writes. */
  ghost predicate QueueWithin(log: seq<Write>, front: nat, held: seq<Write>) {
    forall w: Write :: FreeOf(held, w) ==> forall i :: front <= i < |log| ==> Compatible(log[i], w)
  }

  lemma {:induction false} WithinAppend(log: seq<Write>, front: nat, held: seq<Write>, x: Write)
    requires QueueWithin(log, front, held)
    ensures QueueWithin(log + [x], front, held + [x])
  {
    hide Compatible;
    forall w: Write, i | FreeOf(held + [x], w) && front <= i < |log| + 1 ensures Compatible((log + [x])[i], w) {
      FreeOfFirst(held, x, w);
    }
  }

  lemma {:induction false} FreeOfFirst(held: seq<Write>, x: Write, w: Write)
    requires FreeOf(held + [x], w)
    ensures FreeOf(held, w) && Compatible(x, w)
  {
    hide Compatible;
    assert (held + [x])[|held|] == x;
    assert forall i :: 0 <= i < |held| ==> (held + [x])[i] == held[i];
  }

  lemma {:induction false} WithinMerge(log: seq<Write>, front: nat, held: seq<Write>, f: nat, x: Write)
    requires QueueWithin(log, front, held) && front <= f < |log| && CanMerge(log[f], x)
    ensures QueueWithin(log[f := Merged(log[f], x)], front, held + [x])
  {
    hide Compatible, CanMerge;
    var log' := log[f := Merged(log[f], x)];
    forall w: Write, i | FreeOf(held + [x], w) && front <= i < |log| ensures Compatible(log'[i], w) {
      FreeOfFirst(held, x, w);
      if i == f { MergedIsCompatible(log[f], x, w); }
    }
  }

  /** Writers in step: the bytes both owe the device are the same. */
  ghost predicate InStep(a: AsyncBdevWriter, s: SimpleBdevWriter, seg: seq<Write>)
    reads a, s
  {
    && a.Settled() && s.Valid() && a.bdevSizeLb == s.bdevSizeLb && a.t.dev0 == s.dev0
    && a.q.fetched <= |a.t.log| && a.t.log[a.q.fetched..] == seg
    && SameBytes(a.t.log, s.done + s.ioQ, s.dev0)
    && a.stat.normalLb == s.stat.normalLb && a.stat.discardLb == s.stat.discardLb
  }

  lemma {:induction false} MergeHarmlessInSegment(log: seq<Write>, f: nat, w: Write)
    requires f <= |log|
    ensures MergeHarmless(log, f, w) <==> MergeHarmless(log[f..], 0, w)
  {
    var seg := log[f..];
    forall j: nat, a: nat ensures LastAfter(seg, 0, j, a) <==> LastAfter(log, f, f + j, a) {
      assert 0 <= j < |seg| ==> seg[j] == log[f + j];
      if LastAfter(seg, 0, j, a) {
        forall k | f + j < k < |log| ensures !Covers(log[k], a) { assert log[k] == seg[k - f]; }
      }
      if LastAfter(log, f, f + j, a) {
        forall k | j < k < |seg| ensures !Covers(seg[k], a) { assert seg[k] == log[f + k]; }
      }
    }
    if MergeHarmless(seg, 0, w) {
      forall j: nat, a: nat | LastAfter(log, f, j, a) && Covers(w, a)
        ensures log[j].data[a - log[j].offset] == w.data[a - w.offset]
      {
        assert LastAfter(seg, 0, j - f, a) && seg[j - f] == log[j];
      }
    }
    if MergeHarmless(log, f, w) {
      forall j: nat, a: nat | LastAfter(seg, 0, j, a) && Covers(w, a)
        ensures seg[j].data[a - seg[j].offset] == w.data[a - w.offset]
      {
        assert LastAfter(log, f, f + j, a) && seg[j] == log[f + j];
      }
    }
  }

  method CallPrepare(a: AsyncBdevWriter, s: SimpleBdevWriter, c: Call, ghost seg: seq<Write>, ghost held: seq<Write>)
    requires c.Prepare? && WellFormed(c) && InStep(a, s, seg) && QueueWithin(a.t.log, a.q.front, held)
    requires a.BufferFree(WriteOf(c))
    requires Clipped(c, a.bdevSizeLb) || Harmless(seg, s.ioQ, c)
    modifies a, s
    ensures InStep(a, s, if Clipped(c, a.bdevSizeLb) then seg else Fetched(seg, c))
    ensures s.dev0 == old(s.dev0) && s.ioQ == if Clipped(c, a.bdevSizeLb) then old(s.ioQ) else Queued(old(s.ioQ), c)
    ensures QueueWithin(a.t.log, a.q.front, Held(held, c, a.bdevSizeLb))
  {
    hide Inv, QueueWithin, Compatible;
    PendingFacts(a.S());
    FetchedSegment(a, seg);
    ghost var log, f, w := a.t.log, a.q.fetched, Write(LBS * c.offLb, c.addr, c.data);
    ghost var queue := s.done + s.ioQ;
    ghost var mrg := a.Merges(w);
    var ok := a.Prepare(c.offLb, c.sizeLb, c.addr, c.data);
    var ok' := s.Prepare(c.offLb, c.sizeLb, c.addr, c.data);
    if ok {
      assert s.done + s.ioQ == queue + [w];
      if mrg {
        MergeHarmlessInSegment(log, f, w);
        MergeAgrees(log, queue, f, w, s.dev0);
        assert a.t.log[f..] == seg[0 := Merged(seg[0], w)];
        WithinMerge(log, a.q.front, held, f, w);
      } else {
        AppendAgrees(log, queue, w, s.dev0);
        assert a.t.log[f..] == seg + [w];
        WithinAppend(log, a.q.front, held, w);
      }
    }
  }

  lemma {:induction false} FetchedSegment(a: AsyncBdevWriter, seg: seq<Write>)
    requires Inv(a.S()) && a.q.fetched <= |a.t.log| && a.t.log[a.q.fetched..] == seg
    ensures |a.q.ios| == |a.t.log|
    ensures forall w: Write :: a.Merges(w) <==> MergesInto(seg, w)
  {
    hide Inv;
    PendingFacts(a.S());
    if a.q.fetched < |a.q.ios| {
      FetchedFacts(a.S());
    }
  }

  method CallDiscard(a: AsyncBdevWriter, s: SimpleBdevWriter, c: Call, ghost seg: seq<Write>, ghost held: seq<Write>)
    requires c.Discard? && WellFormed(c) && InStep(a, s, seg) && QueueWithin(a.t.log, a.q.front, held)
    requires Clipped(c, a.bdevSizeLb) || Harmless(seg, s.ioQ, c)
    modifies a, s
    ensures InStep(a, s, if Clipped(c, a.bdevSizeLb) then seg else [])
    ensures s.dev0 == old(s.dev0) && s.ioQ == old(s.ioQ)
    ensures QueueWithin(a.t.log, a.q.front, Held(held, c, a.bdevSizeLb))
  {
    hide Inv;
    PendingFacts(a.S());
    ghost var log, w := a.t.log, Write(LBS * c.offLb, 0, c.data);
    ghost var done, queue := s.done, s.ioQ;
    var ok := a.Discard(c.offLb, c.sizeLb, c.data);
    var ok' := s.Discard(c.offLb, c.sizeLb, c.data);
    if ok {
      PendingFacts(a.S());
      AppendAgrees(log, done + queue, w, s.dev0);
      EarlyDiscardIffHarmless(done, queue, w, s.dev0);
    }
  }

  method CallFlush(a: AsyncBdevWriter, s: SimpleBdevWriter, c: Call, ghost seg: seq<Write>, ghost held: seq<Write>)
    requires (c.Submit? || c.WaitForAll?) && InStep(a, s, seg) && QueueWithin(a.t.log, a.q.front, held)
    modifies a, s
    ensures InStep(a, s, []) && s.dev0 == old(s.dev0) && s.ioQ == Queued(old(s.ioQ), c)
    ensures c.WaitForAll? ==> Quiet(a.S()) && IsFifoResult(a.t.log, a.t.dev0, a.t.dev) && s.dev == old(s.dev)
    ensures c.WaitForAll? ==> a.stat.normalLb + a.stat.discardLb == a.stat.writtenLb + a.stat.overwrittenLb
    ensures c.Submit? ==> s.stat.normalLb + s.stat.discardLb == s.stat.writtenLb
    ensures c.WaitForAll? ==> s.stat == old(s.stat) && s.done == old(s.done)
    ensures QueueWithin(a.t.log, a.q.front, Held(held, c, a.bdevSizeLb))
  {
    hide Inv;
    PendingFacts(a.S());
    if c.Submit? {
      a.Submit();
      s.Submit();
      assert s.done + s.ioQ == old(s.done + s.ioQ);
    } else {
      a.WaitForAll();
    }
    PendingFacts(a.S());
  }

  /** For every sequence of calls in which no merge or discard overtakes a write it disturbs, and every
      order in which the kernel completes requests: once both writers are flushed, their devices hold
      the same bytes and the same number of blocks was accounted for. It ends before the first call that refills the
      buffer of a write still queued, and there is none if no buffer is refilled before the next drain; `given` are
      the buffers handed over before. */
  method RunBoth(calls: seq<Call>, a: AsyncBdevWriter, s: SimpleBdevWriter, ghost given: seq<Write>) returns (n: nat)
    requires InStep(a, s, []) && s.ioQ == [] && QueueWithin(a.t.log, a.q.front, given)
    requires forall i :: 0 <= i < |calls| ==> WellFormed(calls[i])
    requires AllHarmless([], [], calls, a.bdevSizeLb)
    modifies a, s
    ensures n <= |calls| && (n < |calls| ==> calls[n].Prepare?)
    ensures BuffersKept(given, calls, a.bdevSizeLb) ==> n == |calls|
    ensures a.Settled() && s.Valid() && Quiet(a.S()) && s.ioQ == []
    ensures Same(a.t.dev, s.dev)
    ensures a.stat.normalLb == s.stat.normalLb && a.stat.discardLb == s.stat.discardLb
    ensures a.stat.writtenLb + a.stat.overwrittenLb == s.stat.writtenLb
  {
    hide Inv, InStep, Harmless, Fetched, QueueWithin, FreeOf, Held;
    ghost var seg, held := [], given;
    n := 0;
    assert calls[0..] == calls;
    while n < |calls| && (calls[n].Prepare? ==> a.BufferFree(WriteOf(calls[n])))
      invariant n <= |calls| && InStep(a, s, seg) && AllHarmless(seg, s.ioQ, calls[n..], a.bdevSizeLb)
      invariant QueueWithin(a.t.log, a.q.front, held)
      invariant BuffersKept(given, calls, a.bdevSizeLb) ==> BuffersKept(held, calls[n..], a.bdevSizeLb)
    {
      var c := calls[n];
      assert calls[n..][0] == c && calls[n..][1..] == calls[n + 1..];
      RunCall(c, a, s, seg, held);
      seg := if Clipped(c, a.bdevSizeLb) then seg else Fetched(seg, c);
      held := Held(held, c, a.bdevSizeLb);
      n := n + 1;
    }
    if n < |calls| {
      assert calls[n..][0] == calls[n];
      TakenBuffer(a, s, seg, held, WriteOf(calls[n]));
    }
    CallFlush(a, s, Submit, seg, held);
    CallFlush(a, s, WaitForAll, [], Held(held, Submit, a.bdevSizeLb));
    FlushedSame(a, s);
  }

  lemma {:induction false} TakenBuffer(a: AsyncBdevWriter, s: SimpleBdevWriter, seg: seq<Write>, held: seq<Write>,
                                       w: Write)
    requires InStep(a, s, seg) && QueueWithin(a.t.log, a.q.front, held) && !a.BufferFree(w)
    ensures !FreeOf(held, w)
  {
    hide Inv, Compatible, FreeOf;
    BufferFacts(a.S());
  }

  lemma {:induction false} FlushedSame(a: AsyncBdevWriter, s: SimpleBdevWriter)
    requires InStep(a, s, []) && s.ioQ == [] && IsFifoResult(a.t.log, a.t.dev0, a.t.dev)
    ensures Same(a.t.dev, s.dev) && a.Settled() && s.Valid()
    ensures a.stat.normalLb == s.stat.normalLb && a.stat.discardLb == s.stat.discardLb
  {
    hide Inv;
    assert s.done + s.ioQ == s.done;
    forall x: nat ensures a.t.dev(x) == s.dev(x) {
      assert a.t.dev(x) == Byte(a.t.log, |a.t.log|, x, s.dev0);
    }
  }

  method RunCall(c: Call, a: AsyncBdevWriter, s: SimpleBdevWriter, ghost seg: seq<Write>, ghost held: seq<Write>)
    requires WellFormed(c) && InStep(a, s, seg) && QueueWithin(a.t.log, a.q.front, held)
    requires c.Prepare? ==> a.BufferFree(WriteOf(c))
    requires Clipped(c, a.bdevSizeLb) || Harmless(seg, s.ioQ, c)
    modifies a, s
    ensures InStep(a, s, if Clipped(c, a.bdevSizeLb) then seg else Fetched(seg, c))
    ensures s.ioQ == if Clipped(c, a.bdevSizeLb) then old(s.ioQ) else Queued(old(s.ioQ), c)
    ensures QueueWithin(a.t.log, a.q.front, Held(held, c, a.bdevSizeLb))
  {
    hide Inv, InStep, Harmless, QueueWithin, Held;
    match c
    case Prepare(_, _, _, _) => CallPrepare(a, s, c, seg, held);
    case Discard(_, _, _) => CallDiscard(a, s, c, seg, held);
    case _ => CallFlush(a, s, c, seg, held);
  }

  // ---- inputs on which the two writers differ ----

  /** Both writers on the same new device of eight blocks. */
  method NewPair(d: Device) returns (a: AsyncBdevWriter, s: SimpleBdevWriter)
    ensures fresh(a) && fresh(s) && a.Settled() && s.Valid() && a.bdevSizeLb == 8 && s.bdevSizeLb == 8
    ensures a.t.log == [] && a.q.fetched == 0 && s.done == [] && s.ioQ == [] && a.t.dev0 == d && s.dev0 == d
  {
    hide Inv;
    a := new AsyncBdevWriter(8, MEBI, _ => 0, d);
    s := new SimpleBdevWriter(8, d);
    NothingFetched(a.S());
  }

  lemma {:induction false} NothingFetched(s: State)
    requires Inv(s) && s.q.ios == []
    ensures s.q.fetched == 0
  {
  }

  /** One accepted block for both. */
  method PrepareBoth(a: AsyncBdevWriter, s: SimpleBdevWriter, offLb: nat, addr: nat, data: seq<byte>,
                     ghost merges: bool)
    requires a.Settled() && s.Valid() && a.bdevSizeLb == s.bdevSizeLb && offLb < a.bdevSizeLb && |data| == LBS
    requires forall w :: w in a.t.log ==> w.addr + |w.data| <= addr || addr + LBS <= w.addr
    requires a.q.fetched <= |a.t.log| && merges == MergesInto(a.t.log[a.q.fetched..], Write(LBS * offLb, addr, data))
    modifies a, s
    ensures a.Settled() && s.Valid() && a.q.fetched == old(a.q.fetched) && a.t.dev0 == old(a.t.dev0)
        && s.dev0 == old(s.dev0)
    ensures s.done == old(s.done) && s.ioQ == old(s.ioQ) + [Write(LBS * offLb, addr, data)]
    ensures var w, f := Write(LBS * offLb, addr, data), old(a.q.fetched);
            if merges then f < |old(a.t.log)| && a.t.log == old(a.t.log)[f := Merged(old(a.t.log)[f], w)]
            else a.t.log == old(a.t.log) + [w]
  {
    hide Inv;
    assert a.BufferFree(Write(LBS * offLb, addr, data)) by {
      BufferFacts(a.S());
      assert forall i :: 0 <= i < |a.t.log| ==> a.t.log[i] in a.t.log;
    }
    hide Compatible;
    FetchedSegment(a, a.t.log[a.q.fetched..]);
    var _ := a.Prepare(offLb, 1, addr, data);
    var _ := s.Prepare(offLb, 1, addr, data);
  }

  /** The three calls of `MergeReorders`. */
  method PrepareMerging(a: AsyncBdevWriter, s: SimpleBdevWriter)
    requires a.Settled() && s.Valid() && a.bdevSizeLb == 8 && s.bdevSizeLb == 8
    requires a.t.log == [] && a.q.fetched == 0 && s.ioQ == []
    modifies a, s
    ensures a.Settled() && s.Valid() && a.t.dev0 == old(a.t.dev0) && s.dev0 == old(s.dev0) && s.done == old(s.done)
    ensures var x, y, w := Write(0, 4096, Block(1)), Write(512, 9000, Block(2)), Write(512, 4608, Block(3));
            a.t.log == [Merged(x, w), y] && s.ioQ == [x, y, w]
  {
    hide Inv, Block;
    ghost var x, y, w := Write(0, 4096, Block(1)), Write(512, 9000, Block(2)), Write(512, 4608, Block(3));
    PrepareBoth(a, s, 0, 4096, Block(1), false);
    assert a.t.log == [x] && a.t.log[0..] == [x];
    PrepareBoth(a, s, 1, 9000, Block(2), false);
    assert a.t.log == [x, y] && a.t.log[0..] == [x, y];
    PrepareBoth(a, s, 1, 4608, Block(3), true);
  }

  /** X, then Y over the next block, then W for that block too, from the memory right behind X: the plain writer
      leaves W there, the asynchronous one, which merges W into X, leaves Y. */
  method MergeReorders(d: Device) returns (a: AsyncBdevWriter, s: SimpleBdevWriter)
    ensures a.Settled() && s.Valid() && a.t.dev0 == s.dev0 == d && a.t.dev(512) == 2 && s.dev(512) == 3
  {
    hide Inv, MergeHarmless, Block, Byte;
    a, s := NewPair(d);
    ghost var x, y, w := Write(0, 4096, Block(1)), Write(512, 9000, Block(2)), Write(512, 4608, Block(3));
    PrepareMerging(a, s);
    s.Submit();
    a.WaitForAll();
    MergeCanReorder(d);
    assert a.t.dev(512) == Byte(a.t.log, |a.t.log|, 512, d);
    assert s.done == [x, y, w];
    assert s.dev(512) == Byte(s.done, |s.done|, 512, d);
  }

  /** A write, then a discard of its block: the plain writer discards first and leaves the write, the asynchronous
      one leaves the discarded block. */
  method DiscardOvertakes(d: Device) returns (a: AsyncBdevWriter, s: SimpleBdevWriter)
    ensures a.Settled() && s.Valid() && a.t.dev0 == s.dev0 == d && a.t.dev(0) == 0 && s.dev(0) == 1
  {
    hide Inv, Block;
    a, s := NewPair(d);
    ghost var x, z := Write(0, 4096, Block(1)), Write(0, 0, Block(0));
    PrepareBoth(a, s, 0, 4096, Block(1), false);
    var _ := a.Discard(0, 1, Block(0));
    var _ := s.Discard(0, 1, Block(0));
    s.Submit();
    a.WaitForAll();
    assert a.t.log == [x, z] && s.done == [z, x];
    assert a.t.dev(0) == Byte(a.t.log, |a.t.log|, 0, d);
    assert s.dev(0) == Byte(s.done, |s.done|, 0, d);
  }
}
