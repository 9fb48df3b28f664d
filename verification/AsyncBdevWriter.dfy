/**
 `AsyncBdevWriter` of src/bdev_writer.hpp and src/bdev_writer.cpp over the `Aio` queue of
 include/aio_util.hpp. The kernel completes any pending requests in any order, and until a request
 completes the bytes it covers may hold anything.
 */
module AsyncBdevWriters {
  import opened BlockWrites
  import opened RangeUtil
  import opened WriterState
  import opened WriterSteps
  import opened WriterOps
  import opened WriterMachine
  import opened Serializer

  const MEBI: nat := 1048576
  const MAX_AIO_REQ_NR: nat := 1024

  /** `Aio::Aio`: the depth of the aio queue for a buffer size. */
  function QueueSize(bufferSize: nat): nat {
    if bufferSize / LBS < MAX_AIO_REQ_NR then bufferSize / LBS else MAX_AIO_REQ_NR
  }

  /** The aio queue is as deep as the buffer has logical blocks, up to 1024. */
  lemma {:induction false} QueueDepth(bufferSize: nat, n: nat)
    ensures n <= QueueSize(bufferSize) <==> n <= 1024 && 512 * n <= bufferSize
  {
  }

  /** The thresholds of `hasManyProcessingIos` are positive exactly for buffers of two blocks or more:
      below that an idle writer would wait for an IO that does not exist. */
  lemma {:induction false} ThresholdsPositive(bufferSize: nat)
    ensures 0 < bufferSize / 2 && 0 < QueueSize(bufferSize) / 2 <==> 2 * LBS <= bufferSize
  {
  }

  lemma {:induction false} IdleSize(s: State)
    requires Inv(s) && s.q.front == s.q.fetched
    ensures s.q.processingSize == 0
  {
  }

  /** What no internal step changes. */
  ghost predicate Keeps(s: State, s': State) {
    && s'.t.log == s.t.log && s'.t.dev0 == s.t.dev0 && s'.mem == s.mem && s'.aio.queueSize == s.aio.queueSize
    && |s'.q.ios| == |s.q.ios|
    && s'.stat == s.stat.(writtenLb := s'.stat.writtenLb, overwrittenLb := s'.stat.overwrittenLb)
  }

  /** Where an accepted write goes in queue order. */
  ghost predicate EntersLog(s: State, s': State, w: Write, merges: bool) {
    && s'.q.fetched == s.q.fetched
    && if merges then s.q.fetched < |s.t.log| && s'.t.log == s.t.log[s.q.fetched := Merged(s.t.log[s.q.fetched], w)]
       else s'.t.log == s.t.log + [w]
  }

  /** Which of the pending requests `io_getevents` reports: any of them, at least one. */
  method SomeOf(pending: map<nat, AioData>) returns (c: set<nat>)
    requires pending != map[]
    ensures c <= pending.Keys && 0 < |c|
  {
    var some :| some in pending;
    assert {some} <= {some} <= pending.Keys;
    c :| {some} <= c <= pending.Keys;
    assert some in c;
  }

  /** What the device may then hold: any outcome the kernel allows. */
  lemma {:induction false} KernelOutcome(s: State, c: set<nat>) returns (d: Device)
    requires Inv(s) && c <= s.aio.pending.Keys
    ensures c <= s.t.owner.Keys && KernelStep(s.aio.pending, c, s.t.dev, d)
  {
    hide Inv, KernelStep;
    PendingFacts(s);
    KernelCanStep(s.aio.pending, c, s.t.dev);
    d :| KernelStep(s.aio.pending, c, s.t.dev, d);
  }

  /** `OverlappedSerializer::delIoAndPushReadyIos` of the oldest IO. */
  method DeleteOldest(ios: seq<Io>, ov: OverlappedSerializer, x: nat, readyQ: ReadyQueue, ghost log: seq<Write>,
                      ghost hi: nat)
    returns (s': seq<nat>, ios': seq<Io>, ready': seq<nat>, total': nat)
    requires QueuesOk(ios, x, hi, readyQ.ioSet, ov, log) && x < hi && x !in readyQ.ioSet
    requires Ordered(log, readyQ.ioSet) && (forall p :: 0 <= p < |readyQ.ioSet| ==> readyQ.ioSet[p] < |log|)
    requires readyQ.totalSize == SumSet(log, readyQ.ioSet)
    ensures |ios| == |log| && hi <= |ios| && Released(ios, ios', log, x, hi)
    ensures SetInv(log, x + 1, hi, s', if s' == [] then 0 else ov.maxSize)
    ensures ReadiedBy(ios', log, readyQ.ioSet, ready', Waiters(log, x, hi), total')
  {
    hide SetInv, CountInv, ReadyInv, SkipInv, Released, ReadiedBy;
    s' := EraseOldest(ios, ov.ioSet, x, log, hi, ov.maxSize);
    ios', ready', total' := ReleaseOverlapped(ios, s', if s' == [] then 0 else ov.maxSize, x, readyQ.ioSet,
        readyQ.totalSize, log, hi);
  }

  lemma {:induction false} AppendAgrees(log: seq<Write>, spec: seq<Write>, w: Write, d: Device)
    ensures SameBytes(log, spec, d) ==> SameBytes(log + [w], spec + [w], d)
  {
    if SameBytes(log, spec, d) {
      var log', spec' := log + [w], spec + [w];
      forall a: nat ensures Byte(log', |log'|, a, d) == Byte(spec', |spec'|, a, d) {
        ByteOfPrefix(log, [w], |log|, a, d);
        ByteOfPrefix(spec, [w], |spec|, a, d);
        assert Byte(log, |log|, a, d) == Byte(spec, |spec|, a, d);
      }
    }
  }

  lemma {:induction false} MergeAgrees(log: seq<Write>, spec: seq<Write>, f: nat, w: Write, d: Device)
    requires f < |log| && CanMerge(log[f], w)
    ensures SameBytes(log, spec, d) ==> (SameBytes(log[f := Merged(log[f], w)], spec + [w], d)
        <==> MergeHarmless(log, f, w))
  {
    MergeKeepsFifoIffHarmless(log, f, w, d);
    if SameBytes(log, spec, d) {
      AppendAgrees(log, spec, w, d);
    }
  }

  lemma {:induction false} FillBacks(mem: Memory, w: Write)
    ensures Backed(Fill(mem, w), w)
  {
  }

  /** Filling a buffer leaves the bytes of a write with which it has none to share. */
  lemma {:induction false} FillKeeps(mem: Memory, x: Write, w: Write)
    requires Backed(mem, x) && Compatible(x, w)
    ensures Backed(Fill(mem, w), x)
  {
  }

  lemma {:induction false} SizeFacts(s: State)
    requires Inv(s)
    ensures s.q.fetched <= |s.t.log| && s.q.processingSize == SumLog(s.t.log, s.q.front, s.q.fetched)
  {
  }

  lemma {:induction false} NoneReady(s: State)
    requires Inv(s)
    ensures s.readyQ.ioSet == [] ==> s.readyQ.totalSize == 0
  {
  }

  lemma {:induction false} BufferFacts(s: State)
    requires Inv(s)
    ensures s.q.front <= s.q.fetched <= |s.q.ios| == |s.t.log|
    ensures forall i :: s.q.front <= i < |s.q.ios| ==>
                          s.q.ios[i].w == s.t.log[i] && s.q.ios[i].w.data != [] && Backed(s.mem, s.t.log[i])
  {
    hide Backed;
  }

  /** The search of `ReadyQueue::tryErase` in the range `equal_range` gave. */
  method FindIn(s: seq<nat>, from: nat, e: nat, x: nat) returns (i: nat)
    requires from <= |s| && e <= |s| && (x in s ==> x in s[from..])
    requires forall p :: e <= p < |s| ==> s[p] != x
    ensures i < e ==> s[i] == x
    ensures e <= i ==> x !in s
  {
    i := from;
    while i < e && s[i] != x
      invariant i <= |s| && (x in s ==> x in s[i..])
    {
      i := i + 1;
    }
  }

  class AsyncBdevWriter {
    const bdevSizeLb: nat
    const bufferSize: nat
    var q: IoQueue
    var readyQ: ReadyQueue
    var overlapped: OverlappedSerializer
    var aio: Aio
    var stat: Stats
    var mem: Memory              // what the memory holds, as far as the writer reads it

    ghost var reaped: bool
    ghost var t: Trace
    ghost var spec: seq<Write>   // accepted writes and discards, in call order

    ghost function S(): State
      reads this
    {
      State(q, readyQ, overlapped, aio, stat, reaped, mem, t)
    }

    /** Between the phases of one call: nothing waits in the aio submit queue. */
    ghost predicate Settled()
      reads this
    {
      Inv(S()) && !reaped && aio.submitQ == [] && t.sk == {} && 0 < bufferSize / 2 && 0 < aio.queueSize / 2
    }

    /** The queue order leaves what the call order would. */
    ghost predicate Agrees()
      reads this
    {
      SameBytes(t.log, spec, t.dev0)
    }

    /** A writer with an aio queue of at least one request, as `Aio::Aio` asserts. */
    constructor (bdevSizeLb: nat, bufferSize: nat, mem: Memory, ghost d: Device)
      requires LBS <= bufferSize
      ensures Inv(S()) && (Settled() <==> 2 * LBS <= bufferSize) && aio.queueSize == QueueSize(bufferSize)
      ensures this.bdevSizeLb == bdevSizeLb && this.bufferSize == bufferSize
      ensures Agrees() && spec == [] && t.log == [] && t.dev0 == d && t.dev == d && stat == Stats(0, 0, 0, 0, 0)
      ensures q.ios == []
    {
      this.bdevSizeLb, this.bufferSize := bdevSizeLb, bufferSize;
      q := IoQueue([], 0, 0, 0, 0);
      readyQ := ReadyQueue([], 0, {});
      overlapped := OverlappedSerializer([], 0);
      aio := Aio(QueueSize(bufferSize), [], map[], map[], 1);
      stat := Stats(0, 0, 0, 0, 0);
      this.mem := mem;
      reaped, t, spec := false, Trace(d, d, [], {}, map[], {}), [];
      new;
      hide Inv;
      InvInitial(S());
      ThresholdsPositive(bufferSize);
    }

    // ---- Aio ----

    /** `Aio::wait_(1)`: at least one pending request completes; the kernel picks which. */
    method KernelWait()
      requires Settled() && aio.pending != map[]
      modifies this`aio, this`t
      ensures Settled() && Keeps(old(S()), S())
      ensures |aio.pending| < |old(aio.pending)|
      ensures |aio.pending| + |aio.completed| == |old(aio.pending)| + |old(aio.completed)|
      ensures forall k :: k in old(aio.pending) || k in old(aio.completed) ==> k in aio.pending || k in aio.completed
    {
      hide Inv, KernelStep, OwnersOf;
      var c := SomeOf(aio.pending);
      ghost var s := S();
      ghost var d := KernelOutcome(s, c);
      t := t.(dev := d, landed := t.landed + OwnersOf(t.owner, c));
      aio := Completed(aio, c);
      KernelFacts(s, S(), c, d);
    }

    /** `ReadyQueue::waitFor` of the oldest IO, with `Aio::waitFor`. */
    method WaitForFront()
      requires Settled() && q.front < q.fetched <= |q.ios| && q.ios[q.front].state == Submitted
      modifies this`aio, this`t, this`readyQ, this`reaped
      ensures Inv(S()) && reaped && Keeps(old(S()), S()) && aio.submitQ == [] && t.sk == {}
      ensures readyQ == old(readyQ).(doneSet := readyQ.doneSet)
    {
      hide Inv;
      FrontFacts(S());
      var key := q.ios[q.front].aioKey;
      if key !in readyQ.doneSet {
        while key !in aio.completed
          invariant Settled() && Keeps(old(S()), S()) && readyQ == old(readyQ)
          invariant key in aio.pending || key in aio.completed
          decreases |aio.pending|
        {
          KernelWait();
        }
      }
      ghost var s := S();
      readyQ := readyQ.(doneSet := readyQ.doneSet - {key});
      aio := aio.(completed := aio.completed - {key});
      t, reaped := t.(owner := t.owner - {key}), true;
      InvReap(s, S());
    }

    /** `ReadyQueue::waitAny`: one or more completions go to the done set. */
    method WaitAny()
      requires Settled() && aio.pending != map[]
      modifies this`aio, this`t, this`readyQ
      ensures Settled() && Keeps(old(S()), S())
      ensures readyQ == old(readyQ).(doneSet := readyQ.doneSet)
      ensures |aio.pending| + |aio.completed| < |old(aio.pending)| + |old(aio.completed)|
    {
      hide Inv;
      if aio.completed == map[] {
        KernelWait();
      }
      ghost var s := S();
      readyQ := readyQ.(doneSet := readyQ.doneSet + aio.completed.Keys);
      aio := aio.(completed := map[]);
      InvReport(s, S());
    }

    /** `Aio::submit` */
    method AioSubmit()
      requires Inv(S()) && !reaped
      modifies this`aio, this`t
      ensures Inv(S()) && Keeps(old(S()), S()) && aio.submitQ == [] && t.sk == {}
      ensures |aio.pending| == |old(aio.pending)| + |old(aio.submitQ)|
      ensures old(aio.submitQ) == [] ==> S() == old(S())
    {
      hide Inv;
      while aio.submitQ != []
        invariant Inv(S()) && Keeps(old(S()), S())
        invariant |aio.pending| + |aio.submitQ| == |old(aio.pending)| + |old(aio.submitQ)|
        invariant old(aio.submitQ) == [] ==> S() == old(S())
        decreases |aio.submitQ|
      {
        ghost var s := S();
        HeadFacts(s);
        t := t.(sk := t.sk - {aio.submitQ[0].key});
        aio := MoveHead(aio);
        InvToKernel(s, S());
      }
      NoHeadFacts(S());
    }

    // ---- ReadyQueue ----

    predicate IsQueueFull()
      reads this
    {
      |aio.submitQ| + |aio.pending| >= aio.queueSize
    }

    /** One round of `ReadyQueue::submit`. */
    method PrepareFirst()
      requires Inv(S()) && !reaped && readyQ.ioSet != [] && !IsQueueFull()
      modifies this`aio, this`t, this`readyQ, this`q
      ensures Inv(S()) && Keeps(old(S()), S()) && q == old(q).(ios := q.ios) && aio.pending == old(aio.pending)
      ensures readyQ.ioSet == old(readyQ.ioSet[1..])
    {
      hide Inv;
      ghost var s := S();
      ReadyFacts(s);
      var x := readyQ.ioSet[0];
      readyQ := readyQ.(ioSet := readyQ.ioSet[1..], totalSize := readyQ.totalSize - |q.ios[x].w.data|);
      if q.ios[x].state != Overwritten {
        t := t.(owner := t.owner[aio.key := x], sk := t.sk + {aio.key});
        q := q.(ios := q.ios[x := q.ios[x].(state := Submitted, aioKey := aio.key)]);
        aio := AddRequest(aio, Request(mem, q.ios[x].w));
      }
      InvSubmitFirst(s, S());
    }

    /** `ReadyQueue::submit`, the loop that prepares requests. */
    method PrepareReady()
      requires Settled()
      modifies this`aio, this`t, this`readyQ, this`q
      ensures Inv(S()) && Keeps(old(S()), S())
      ensures readyQ.ioSet == [] || IsQueueFull()
      ensures q == old(q).(ios := q.ios)
      ensures |readyQ.ioSet| <= |old(readyQ.ioSet)|
      ensures |readyQ.ioSet| == |old(readyQ.ioSet)| ==> S() == old(S())
      ensures aio.pending == old(aio.pending)
    {
      hide Inv;
      while readyQ.ioSet != [] && !IsQueueFull()
        invariant Inv(S()) && Keeps(old(S()), S()) && q == old(q).(ios := q.ios) && aio.pending == old(aio.pending)
        invariant |readyQ.ioSet| <= |old(readyQ.ioSet)|
        invariant |readyQ.ioSet| == |old(readyQ.ioSet)| ==> S() == old(S())
        decreases |readyQ.ioSet|
      {
        PrepareFirst();
      }
    }

    /** `ReadyQueue::submit`: submits from the ready set until it is empty or the aio queue is full. */
    method SubmitReady()
      requires Settled()
      modifies this`aio, this`t, this`readyQ, this`q
      ensures Settled() && Keeps(old(S()), S())
      ensures readyQ.ioSet == [] || IsQueueFull()
      ensures q == old(q).(ios := q.ios)
      ensures |readyQ.ioSet| <= |old(readyQ.ioSet)|
      ensures |readyQ.ioSet| == |old(readyQ.ioSet)| ==> S() == old(S())
    {
      hide Inv;
      PrepareReady();
      AioSubmit();
    }

    /** The search of `ReadyQueue::tryErase` for the oldest IO: its place in the ready set, or the set's size. */
    method FindFront() returns (i: nat)
      requires Inv(S()) && q.front < q.fetched <= |q.ios|
      ensures i <= |readyQ.ioSet| && (i < |readyQ.ioSet| ==> readyQ.ioSet[i] == q.front)
      ensures i == |readyQ.ioSet| ==> q.front !in readyQ.ioSet
    {
      hide Inv;
      FrontPlace(S());
      var offset := q.ios[q.front].w.offset;
      var from, e := LowerBound(q.ios, readyQ.ioSet, offset), UpperBound(q.ios, readyQ.ioSet, offset);
      i := FindIn(readyQ.ioSet, from, e, q.front);
      if e <= i {
        i := |readyQ.ioSet|;
      }
    }

    /** `ReadyQueue::tryErase` of the oldest IO, which is skipped. */
    method TryEraseFront()
      requires Settled() && q.front < q.fetched <= |q.ios| && q.ios[q.front].state == Overwritten
      modifies this`readyQ, this`reaped
      ensures Inv(S()) && reaped && Keeps(old(S()), S())
    {
      hide Inv;
      FrontFacts(S());
      var i := FindFront();
      ghost var s := S();
      if i < |readyQ.ioSet| {
        ErasableFacts(s, i);
        readyQ := readyQ.(ioSet := Without(readyQ.ioSet, i),
                          totalSize := readyQ.totalSize - |q.ios[q.front].w.data|);
      }
      reaped := true;
      InvDropFront(s, S(), i);
    }

    /** `ReadyQueue::forceComplete` of the oldest IO: it is completed, or dropped if it is overwritten. */
    method ForceComplete()
      requires Settled() && q.front < q.fetched
      modifies this`aio, this`t, this`readyQ, this`q, this`reaped
      ensures Inv(S()) && reaped && Keeps(old(S()), S()) && aio.submitQ == [] && t.sk == {}
      ensures q == old(q).(ios := q.ios)
    {
      hide Inv;
      FrontFacts(S());
      while q.ios[q.front].state == Init
        invariant Settled() && Keeps(old(S()), S()) && q == old(q).(ios := q.ios)
        invariant q.front < q.fetched <= |q.ios|
        decreases |readyQ.ioSet|, |aio.pending| + |aio.completed|
      {
        SubmitReady();
        FrontFacts(S());
        if q.ios[q.front].state == Init {
          WaitAny();
        }
      }
      if q.ios[q.front].state == Submitted {
        WaitForFront();
      } else {
        TryEraseFront();
      }
    }

    // ---- AsyncBdevWriter ----

    /** `waitForAnIoCompletion`: completes and deletes the oldest IO. */
    method WaitForAnIoCompletion()
      requires Settled() && q.front < q.fetched
      modifies this`aio, this`t, this`readyQ, this`q, this`reaped, this`overlapped, this`stat
      ensures Settled() && Keeps(old(S()), S())
      ensures q.front == old(q.front) + 1 && q.fetched == old(q.fetched)
    {
      hide Inv;
      ForceComplete();
      DeleteFront();
    }

    /** The rest of `waitForAnIoCompletion`: statistics, `delIoAndPushReadyIos`, `popFront`. */
    method DeleteFront()
      requires Inv(S()) && reaped
      modifies this`readyQ, this`q, this`reaped, this`overlapped, this`stat
      ensures Inv(S()) && !reaped && Keeps(old(S()), S())
      ensures q.front == old(q.front) + 1 && q.fetched == old(q.fetched)
    {
      hide Inv, ReadiedBy, SetInv, QueuesOk, Ordered, SumSet;
      ghost var s := S();
      DeleteFacts(s);
      var x := q.front;
      var size := |q.ios[x].w.data|;
      stat := if q.ios[x].state == Submitted then stat.(writtenLb := stat.writtenLb + size / LBS)
              else stat.(overwrittenLb := stat.overwrittenLb + size / LBS);
      var set', ios', ready', total';
      set', ios', ready', total' := DeleteOldest(q.ios, overlapped, x, readyQ, t.log, q.fetched);
      overlapped := OverlappedSerializer(set', if set' == [] then 0 else overlapped.maxSize);
      readyQ := readyQ.(ioSet := ready', totalSize := total');
      q := q.(ios := ios', front := x + 1, processingSize := q.processingSize - size);
      reaped := false;
      InvDelete(s, S());
    }

    /** One round of the fetch loop of `processIos`. */
    method FetchNext()
      requires Inv(S()) && !reaped && q.fetched < |q.ios|
      modifies this`q, this`overlapped, this`readyQ
      ensures Inv(S()) && Keeps(old(S()), S())
      ensures q.front == old(q.front) && q.fetched == old(q.fetched) + 1
    {
      hide Inv;
      ghost var s := S();
      FetchedFacts(s);
      var f := q.fetched;
      var size := |q.ios[f].w.data|;
      var ios' := MarkOverlapped(q.ios, overlapped.ioSet, overlapped.maxSize, f, t.log, q.front);
      overlapped := AddToSet(overlapped, q.ios, f);
      if ios'[f].nOverlapped == 0 {
        readyQ := readyQ.(ioSet := Insert(ios', readyQ.ioSet, f), totalSize := readyQ.totalSize + size);
      }
      q := q.(ios := ios', fetched := f + 1, processingSize := q.processingSize + size,
          fetchedSize := q.fetchedSize - size);
      InvFetch(s, S());
    }

    predicate HasManyProcessingIos()
      reads this
    {
      q.processingSize >= bufferSize / 2 || |aio.submitQ| + |aio.pending| >= aio.queueSize / 2
    }

    predicate HasEnoughReadyIos()
      reads this
    {
      readyQ.totalSize >= bufferSize / 2 || |readyQ.ioSet| >= aio.queueSize / 2
    }

    /** An idle writer takes itself for a busy one, and waits for an IO that does not exist, if and only if its
        buffer is below two logical blocks. */
    lemma {:induction false} IdleLooksBusyIff()
      requires Inv(S()) && q.front == q.fetched && aio.queueSize == QueueSize(bufferSize)
      ensures HasManyProcessingIos() <==> bufferSize < 2 * LBS
    {
      hide Inv;
      DrainedFacts(S());
      IdleSize(S());
      ThresholdsPositive(bufferSize);
    }

    /** The first loop of `processIos`: less than half a buffer stays in process and less than half a queue in
        flight. */
    method MakeRoom()
      requires Settled()
      modifies this`aio, this`t, this`readyQ, this`q, this`reaped, this`overlapped, this`stat
      ensures Settled() && Keeps(old(S()), S()) && !HasManyProcessingIos()
      ensures SumLog(t.log, q.front, q.fetched) < bufferSize / 2 && |aio.pending| < aio.queueSize / 2
      ensures q.front >= old(q.front) && q.fetched == old(q.fetched)
      ensures old(HasManyProcessingIos()) ==> q.front > old(q.front)
      ensures old(q.processingSize < bufferSize / 2 && |aio.pending| < aio.queueSize / 2) ==> S() == old(S())
      ensures q.front <= q.fetched <= |q.ios|
    {
      hide Inv;
      PendingFacts(S());
      while HasManyProcessingIos()
        invariant Settled() && Keeps(old(S()), S()) && q.fetched == old(q.fetched)
        invariant q.front >= old(q.front) && q.front <= q.fetched <= |q.ios|
        invariant q.front == old(q.front) ==> S() == old(S())
        invariant !old(HasManyProcessingIos()) ==> q.front == old(q.front)
        decreases q.fetched - q.front
      {
        PendingFacts(S());
        WaitForAnIoCompletion();
      }
      SizeFacts(S());
    }

    /** `processIos`: with `force`, returns only when every fetched IO is in process and the ready set is empty. */
    method ProcessIos(force: bool)
      requires Settled()
      modifies this`aio, this`t, this`readyQ, this`q, this`reaped, this`overlapped, this`stat
      ensures Settled() && Keeps(old(S()), S())
      ensures old(q.front) <= q.front <= q.fetched == |q.ios|
      ensures force ==> readyQ.ioSet == []
      ensures !force ==> SumLog(t.log, q.front, old(q.fetched)) < bufferSize / 2
      ensures !force ==> |aio.pending| >= aio.queueSize
                         || (readyQ.totalSize < bufferSize / 2 && |readyQ.ioSet| < aio.queueSize / 2)
    {
      hide Inv;
      PendingFacts(S());
      while true
        invariant Settled() && Keeps(old(S()), S()) && q.front <= q.fetched <= |q.ios|
        invariant old(q.front) <= q.front && (!force ==> q.fetched == old(q.fetched))
        decreases |q.ios| - q.front, !IsQueueFull()
      {
        MakeRoom();
        FetchAll();
        SubmitIfEnough(force);
        if !force || readyQ.ioSet == [] {
          break;
        }
      }
    }

    /** The last part of a round of `processIos`: without `force`, less than half a buffer and half a queue of ready IOs
        are left to become more. */
    method SubmitIfEnough(force: bool)
      requires Settled()
      modifies this`aio, this`t, this`readyQ, this`q
      ensures Settled() && Keeps(old(S()), S()) && q == old(q).(ios := q.ios)
      ensures if !force && old(readyQ.totalSize < bufferSize / 2 && |readyQ.ioSet| < aio.queueSize / 2)
              then S() == old(S())
              else readyQ.ioSet == [] || |aio.pending| >= aio.queueSize
      ensures readyQ.ioSet == [] ==> readyQ.totalSize == 0
      ensures |readyQ.ioSet| == |old(readyQ.ioSet)| ==> S() == old(S())
    {
      hide Inv;
      if force || HasEnoughReadyIos() {
        SubmitReady();
      }
      NoneReady(S());
    }

    method FetchAll()
      requires Settled() && q.fetched <= |q.ios|
      modifies this`q, this`overlapped, this`readyQ
      ensures Settled() && Keeps(old(S()), S())
      ensures q.front == old(q.front) && q.fetched == |q.ios|
    {
      hide Inv;
      while q.fetched < |q.ios|
        invariant Settled() && Keeps(old(S()), S()) && q.front == old(q.front) && q.fetched <= |q.ios|
        decreases |q.ios| - q.fetched
      {
        FetchNext();
      }
    }

    /** `waitForAllProcessingIos`, whose final asserts hold. */
    method WaitForAllProcessingIos()
      requires Settled() && q.front <= q.fetched
      modifies this`aio, this`t, this`readyQ, this`q, this`reaped, this`overlapped, this`stat
      ensures Settled() && Keeps(old(S()), S())
      ensures q.front == q.fetched == old(q.fetched) && aio.pending == map[]
      ensures overlapped.ioSet == [] && readyQ.ioSet == [] && readyQ.totalSize == 0
    {
      hide Inv;
      while q.front < q.fetched
        invariant Settled() && Keeps(old(S()), S()) && q.front <= q.fetched == old(q.fetched)
        decreases q.fetched - q.front
      {
        WaitForAnIoCompletion();
      }
      DrainedFacts(S());
    }

    predicate IsClipped(offLb: nat, sizeLb: nat) {
      offLb + sizeLb > bdevSizeLb
    }

    /** The merge `IoQueue::add` makes: into the first fetched IO, up to 1 MiB. */
    predicate Merges(w: Write)
      reads this
    {
      && q.fetched < |q.ios| && |q.ios[q.fetched].w.data| + |w.data| <= MEBI
      && CanMerge(q.ios[q.fetched].w, w)
    }

    /** The buffer of w takes no byte from the buffer of a queued write. */
    predicate BufferFree(w: Write)
      reads this
    {
      forall i :: q.front <= i < |q.ios| ==> Compatible(q.ios[i].w, w)
    }

    lemma {:induction false} FilledIsBacked(w: Write)
      requires Inv(S()) && BufferFree(w)
      ensures Filled(S(), Fill(mem, w), w)
    {
      hide Inv, Backed, Fill, Compatible;
      BufferFacts(S());
      FillBacks(mem, w);
      forall i | q.front <= i < |t.log| ensures Backed(Fill(mem, w), t.log[i]) {
        FillKeeps(mem, q.ios[i].w, w);
      }
    }

    /** An accepted write is merged exactly when there is a fetched IO, the sum is at most 1 MiB, and one request from
        the buffer of the first fetched IO does the work of both. */
    lemma {:induction false} MergesIff(w: Write)
      requires Inv(S()) && BufferFree(w) && w.data != []
      ensures Merges(w) <==> q.fetched < |q.ios| && |q.ios[q.fetched].w.data| + |w.data| <= 1048576
                             && OneRequestDoes(q.ios[q.fetched].w, w)
    {
      hide Inv, CanMerge, OneRequestDoes, Compatible;
      BufferFacts(S());
      if q.fetched < |q.ios| {
        CanMergeIff(q.ios[q.fetched].w, w);
      }
    }

    /** `prepare`: the device will show the call order exactly when the merge, if any, is harmless. */
    method Prepare(offLb: nat, sizeLb: nat, addr: nat, data: seq<byte>) returns (ok: bool)
      requires Settled() && 0 < sizeLb && |data| == LBS * sizeLb < TWO32
      requires BufferFree(Write(LBS * offLb, addr, data))
      modifies this`q, this`stat, this`t, this`spec, this`mem
      ensures Settled() && ok == !IsClipped(offLb, sizeLb) && ok == (LBS * offLb + |data| <= LBS * bdevSizeLb)
      ensures t.dev0 == old(t.dev0) && t.dev == old(t.dev)
      ensures q.front == old(q.front)
      ensures !ok ==> t == old(t) && spec == old(spec) && q == old(q) && mem == old(mem)
                      && stat == old(stat).(clippedLb := old(stat.clippedLb) + sizeLb)
      ensures ok ==> stat == old(stat).(normalLb := old(stat.normalLb) + sizeLb)
      ensures ok ==> spec == old(spec) + [Write(LBS * offLb, addr, data)]
      ensures ok ==> EntersLog(old(S()), S(), Write(LBS * offLb, addr, data),
          old(Merges(Write(LBS * offLb, addr, data))))
      ensures ok && old(Agrees()) ==>
        (Agrees() <==> (old(Merges(Write(LBS * offLb, addr, data)))
                        ==> MergeHarmless(old(t.log), old(q.fetched), Write(LBS * offLb, addr, data))))
    {
      hide Inv;
      ghost var s := S();
      if IsClipped(offLb, sizeLb) {
        stat := stat.(clippedLb := stat.clippedLb + sizeLb);
        InvClip(s, S());
        return false;
      }
      var w := Write(LBS * offLb, addr, data);
      assert |data| / LBS == sizeLb;
      Enqueue(w);
      return true;
    }

    /** `IoQueue::add` and the statistics of `prepare`. */
    method Enqueue(w: Write)
      requires Inv(S()) && Sized(w) && BufferFree(w)
      modifies this`q, this`stat, this`t, this`spec, this`mem
      ensures Inv(S()) && t == old(t).(log := t.log) && spec == old(spec) + [w]
      ensures mem == Fill(old(mem), w) && q.front == old(q.front)
      ensures stat == old(stat).(normalLb := old(stat.normalLb) + |w.data| / LBS)
      ensures EntersLog(old(S()), S(), w, old(Merges(w)))
      ensures old(Agrees()) ==> (Agrees() <==> (old(Merges(w)) ==> MergeHarmless(old(t.log), old(q.fetched), w)))
    {
      hide Inv, Filled, Fill, Compatible;
      ghost var s := S();
      PendingFacts(s);
      FilledIsBacked(w);
      mem := Fill(mem, w);
      q := q.(fetchedSize := q.fetchedSize + |w.data|);
      stat := stat.(normalLb := stat.normalLb + |w.data| / LBS);
      spec := spec + [w];
      var f := q.fetched;
      if Merges(w) {
        MergeFacts(s, w);
        q := q.(ios := q.ios[f := q.ios[f].(w := Merged(q.ios[f].w, w))]);
        t := t.(log := t.log[f := q.ios[f].w]);
        InvMerge(s, S(), w);
        MergeAgrees(s.t.log, old(spec), f, w, t.dev0);
      } else {
        q := q.(ios := q.ios + [Io(w, 0, 0xffff_ffff, Init)]);
        t := t.(log := t.log + [w]);
        InvAppend(s, S(), w);
        AppendAgrees(s.t.log, old(spec), w, t.dev0);
      }
    }

    /** `submit`: no call order is lost; of the IOs in process before, less than half a buffer remains, and unless the
        aio queue is full, less than half a buffer and half a queue stay unstarted. */
    method Submit()
      requires Settled()
      modifies this`aio, this`t, this`readyQ, this`q, this`reaped, this`overlapped, this`stat
      ensures Settled() && Keeps(old(S()), S()) && q.fetched == |q.ios| && old(q.front) <= q.front
      ensures SumLog(t.log, q.front, old(q.fetched)) < bufferSize / 2
      ensures |aio.pending| >= aio.queueSize
              || (readyQ.totalSize < bufferSize / 2 && |readyQ.ioSet| < aio.queueSize / 2)
    {
      ProcessIos(false);
    }

    /** `waitForAll`: the device holds what the writes done one after the other would leave. */
    method WaitForAll()
      requires Settled()
      modifies this`aio, this`t, this`readyQ, this`q, this`reaped, this`overlapped, this`stat
      ensures Settled() && Keeps(old(S()), S()) && Quiet(S())
      ensures IsFifoResult(t.log, t.dev0, t.dev)
      ensures old(Agrees()) ==> IsFifoResult(spec, t.dev0, t.dev)
      ensures stat.normalLb + stat.discardLb == stat.writtenLb + stat.overwrittenLb
      ensures LBS * stat.overwrittenLb == DoneSize(q.ios, |q.ios|, Overwritten)
    {
      hide Inv;
      ProcessIos(true);
      WaitForAllProcessingIos();
      QuietDeviceIsFifo(S());
    }

    /** `discard`: drains the queue, then discards; `data` is what the device shows there afterwards. */
    method Discard(offLb: nat, sizeLb: nat, data: seq<byte>) returns (ok: bool)
      requires Settled() && |data| == LBS * sizeLb
      modifies this`aio, this`t, this`readyQ, this`q, this`reaped, this`overlapped, this`stat, this`spec
      ensures Settled() && ok == !IsClipped(offLb, sizeLb) && t.dev0 == old(t.dev0)
      ensures ok == (LBS * offLb + |data| <= LBS * bdevSizeLb)
      ensures !ok ==> S() == old(S()) && spec == old(spec)
      ensures ok ==> spec == old(spec) + [Write(LBS * offLb, 0, data)]
      ensures ok ==> t.log == old(t.log) + [Write(LBS * offLb, 0, data)]
      ensures ok ==> stat.discardLb == old(stat.discardLb) + sizeLb && stat.clippedLb == old(stat.clippedLb)
                     && stat.normalLb == old(stat.normalLb)
      ensures ok ==> Quiet(S()) && stat.normalLb + stat.discardLb == stat.writtenLb + stat.overwrittenLb
      ensures old(Agrees()) ==> Agrees() && (ok ==> IsFifoResult(spec, t.dev0, t.dev))
    {
      hide Inv;
      if IsClipped(offLb, sizeLb) {
        return false;
      }
      WaitForAll();
      ghost var s := S();
      ghost var w := Write(LBS * offLb, 0, data);
      assert |data| / LBS == sizeLb;
      ok := true;
      stat := stat.(discardLb := stat.discardLb + sizeLb, writtenLb := stat.writtenLb + sizeLb);
      PendingFacts(s);
      q := q.(ios := q.ios + [Io(Write(LBS * offLb, 0, data), 0, 0, Submitted)], front := q.front + 1,
          fetched := q.fetched + 1);
      t := t.(log := t.log + [w], landed := t.landed + {|t.log|}, dev := Put(t.dev, w));
      spec := spec + [w];
      InvDiscard(s, S(), w);
      QuietDeviceIsFifo(S());
      AppendAgrees(s.t.log, old(spec), w, t.dev0);
    }
  }
}
