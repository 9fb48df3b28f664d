/**
 The asynchronous writer as a transition system: every step the code or the kernel can take, what all
 runs keep, and what the device holds once the queue is empty.
 */
module WriterMachine {
  import opened BlockWrites
  import opened RangeUtil
  import opened WriterState
  import opened WriterSteps
  import opened WriterOps
  import opened Serializer

  /** `WriteIoStatistics`, the volumes in logical blocks. */
  datatype Stats = Stats(normalLb: nat, discardLb: nat, writtenLb: nat, overwrittenLb: nat, clippedLb: nat)

  /** `reaped`: the front IO is complete and only waits to be deleted; `mem`: what the memory holds. */
  datatype State = State(q: IoQueue, readyQ: ReadyQueue, ov: OverlappedSerializer, aio: Aio, stat: Stats,
                         reaped: bool, mem: Memory, t: Trace)

  /** The memory holds the bytes of every queued write in its buffer. */
  ghost predicate BuffersOk(mem: Memory, log: seq<Write>, front: nat) {
    forall i :: front <= i < |log| ==> Backed(mem, log[i])
  }

  function Tracked(s: State): nat {
    if s.reaped then s.q.front + 1 else s.q.front
  }

  // ---- steps ----

  ghost predicate Initial(s: State) {
    && s.q == IoQueue([], 0, 0, 0, 0) && s.readyQ == ReadyQueue([], 0, {}) && s.ov == OverlappedSerializer([], 0)
    && s.aio == Aio(s.aio.queueSize, [], map[], map[], 1) && s.stat == Stats(0, 0, 0, 0, 0) && !s.reaped
    && s.t.log == [] && s.t.landed == {} && s.t.owner == map[] && s.t.sk == {} && s.t.dev == s.t.dev0
  }

  predicate Sized(w: Write) {
    0 < |w.data| < TWO32 && |w.data| % LBS == 0
  }

  /** The caller filled the buffer of w and left those of the queued writes alone; other memory may have changed. */
  ghost predicate Filled(s: State, mem: Memory, w: Write) {
    Backed(mem, w) && BuffersOk(mem, s.t.log, s.q.front)
  }

  /** `IoQueue::add` without a merge. */
  ghost predicate Append(s: State, s': State, w: Write) {
    && Sized(w) && Filled(s, s'.mem, w)
    && s' == s.(mem := s'.mem,
                q := s.q.(ios := s.q.ios + [Io(w, 0, 0xffff_ffff, Init)], fetchedSize := s.q.fetchedSize + |w.data|),
                stat := s.stat.(normalLb := s.stat.normalLb + |w.data| / LBS),
                t := s.t.(log := s.t.log + [w]))
  }

  /** `IoQueue::add` into the first fetched IO. */
  ghost predicate Merge(s: State, s': State, w: Write) {
    var f := s.q.fetched;
    && Sized(w) && f < |s.q.ios| && f < |s.t.log| && CanMerge(s.q.ios[f].w, w) && Sized(Merged(s.q.ios[f].w, w))
    && Filled(s, s'.mem, w)
    && s' == s.(mem := s'.mem,
                q := s.q.(ios := s.q.ios[f := s.q.ios[f].(w := Merged(s.q.ios[f].w, w))],
                          fetchedSize := s.q.fetchedSize + |w.data|),
                stat := s.stat.(normalLb := s.stat.normalLb + |w.data| / LBS),
                t := s.t.(log := s.t.log[f := Merged(s.q.ios[f].w, w)]))
  }

  /** `IoQueue::nextFetched`, `OverlappedSerializer::add` and, if nothing overlaps, `ReadyQueue::push`. */
  ghost predicate Fetch(s: State, s': State) {
    var f := s.q.fetched;
    && f < |s.q.ios| == |s.t.log| && !s.reaped
    && Marked(s.q.ios, s'.q.ios, s.t.log, s.q.front, f)
    && (forall p :: 0 <= p < |s.ov.ioSet| ==> s.ov.ioSet[p] < |s.q.ios|)
    && (forall p :: 0 <= p < |s.readyQ.ioSet| ==> s.readyQ.ioSet[p] < |s.q.ios|)
    && s.q.ios[f].w == s.t.log[f] && |s.t.log[f].data| <= s.q.fetchedSize
    && var size := |s.t.log[f].data|;
       s' == s.(q := s.q.(ios := s'.q.ios, fetched := f + 1, processingSize := s.q.processingSize + size,
                          fetchedSize := s.q.fetchedSize - size),
                ov := AddToSet(s.ov, s.q.ios, f),
                readyQ := s.readyQ.(ioSet := AddIfReady(s.readyQ.ioSet, s'.q.ios, f),
                                    totalSize := s.readyQ.totalSize + if s'.q.ios[f].nOverlapped == 0 then size else 0))
  }

  /** `Aio::prepareWrite` of an IO: the request has its offset, size and buffer address. */
  function Request(mem: Memory, w: Write): Write {
    FromMemory(mem, w.offset, |w.data|, w.addr)
  }

  /** `ReadyQueue::submit`, one IO: the first of the ready set is prepared, or dropped if it is overwritten. */
  ghost predicate SubmitFirst(s: State, s': State) {
    && s.readyQ.ioSet != [] && |s.q.ios| == |s.t.log| && s.readyQ.ioSet[0] < |s.q.ios| && !s.reaped
    && |s.aio.submitQ| + |s.aio.pending| < s.aio.queueSize
    && var x := s.readyQ.ioSet[0];
       && s.q.ios[x].w == s.t.log[x] && |s.q.ios[x].w.data| <= s.readyQ.totalSize
       && var readyQ' := s.readyQ.(ioSet := s.readyQ.ioSet[1..], totalSize := s.readyQ.totalSize - |s.q.ios[x].w.data|);
          if s.q.ios[x].state == Overwritten then s' == s.(readyQ := readyQ')
          else s' == s.(readyQ := readyQ',
                        q := s.q.(ios := s.q.ios[x := s.q.ios[x].(state := Submitted, aioKey := s.aio.key)]),
                        aio := AddRequest(s.aio, Request(s.mem, s.q.ios[x].w)),
                        t := s.t.(owner := s.t.owner[s.aio.key := x], sk := s.t.sk + {s.aio.key}))
  }

  /** `Aio::submit`, one request. */
  ghost predicate ToKernel(s: State, s': State) {
    && s.aio.submitQ != [] && !s.reaped
    && s' == s.(aio := MoveHead(s.aio), t := s.t.(sk := s.t.sk - {s.aio.submitQ[0].key}))
  }

  /** The kernel completes the requests c and leaves the device d. */
  ghost predicate Kernel(s: State, s': State, c: set<nat>, d: Device) {
    && !s.reaped && c <= s.aio.pending.Keys && c <= s.t.owner.Keys && KernelStep(s.aio.pending, c, s.t.dev, d)
    && s' == s.(aio := Completed(s.aio, c), t := s.t.(dev := d, landed := s.t.landed + OwnersOf(s.t.owner, c)))
  }

  /** `ReadyQueue::waitAny`, after the wait. */
  ghost predicate Report(s: State, s': State) {
    && !s.reaped
    && s' == s.(readyQ := s.readyQ.(doneSet := s.readyQ.doneSet + s.aio.completed.Keys),
                aio := s.aio.(completed := map[]))
  }

  /** `ReadyQueue::waitFor`: the front IO is complete. */
  ghost predicate Reap(s: State, s': State) {
    && !s.reaped && s.q.front < s.q.fetched <= |s.q.ios| && s.q.ios[s.q.front].state == Submitted
    && var k := s.q.ios[s.q.front].aioKey;
       && (k in s.aio.completed || k in s.readyQ.doneSet)
       && s' == s.(reaped := true, readyQ := s.readyQ.(doneSet := s.readyQ.doneSet - {k}),
                   aio := s.aio.(completed := s.aio.completed - {k}), t := s.t.(owner := s.t.owner - {k}))
  }

  /** `ReadyQueue::tryErase` of the front IO, found overwritten; p is its place in the ready set, if any. */
  ghost predicate DropFront(s: State, s': State, p: nat) {
    && !s.reaped && s.q.front < s.q.fetched <= |s.q.ios| == |s.t.log|
    && s.q.ios[s.q.front].state == Overwritten && s.q.ios[s.q.front].w == s.t.log[s.q.front]
    && p <= |s.readyQ.ioSet| && (p < |s.readyQ.ioSet| ==> s.readyQ.ioSet[p] == s.q.front)
    && (p == |s.readyQ.ioSet| ==> s.q.front !in s.readyQ.ioSet)
    && var size := |s.q.ios[s.q.front].w.data|;
       && (p < |s.readyQ.ioSet| ==> size <= s.readyQ.totalSize)
       && s' == s.(reaped := true,
                   readyQ := if p == |s.readyQ.ioSet| then s.readyQ
                             else s.readyQ.(ioSet := Without(s.readyQ.ioSet, p),
                                 totalSize := s.readyQ.totalSize - size))
  }

  /** `delIoAndPushReadyIos` and `IoQueue::popFront`, with the statistics of `waitForAnIoCompletion`. */
  ghost predicate Delete(s: State, s': State) {
    var x := s.q.front;
    && s.reaped && x < s.q.fetched <= |s.q.ios| == |s.t.log| && s.q.ios[x].w == s.t.log[x]
    && Released(s.q.ios, s'.q.ios, s.t.log, x, s.q.fetched)
    && SetInv(s.t.log, x + 1, s.q.fetched, s'.ov.ioSet, s'.ov.maxSize)
    && ReadiedBy(s'.q.ios, s.t.log, s.readyQ.ioSet, s'.readyQ.ioSet,
                 Waiters(s.t.log, x, s.q.fetched), s'.readyQ.totalSize)
    && s'.readyQ.doneSet == s.readyQ.doneSet
    && |s.t.log[x].data| <= s.q.processingSize
    && var size := |s.t.log[x].data|;
       s' == s.(reaped := false, ov := s'.ov, readyQ := s'.readyQ,
                q := s.q.(ios := s'.q.ios, front := x + 1, processingSize := s.q.processingSize - size),
                stat := if s.q.ios[x].state == Submitted
                        then s.stat.(writtenLb := s.stat.writtenLb + size / LBS)
                        else s.stat.(overwrittenLb := s.stat.overwrittenLb + size / LBS))
  }

  /** Nothing is queued. */
  ghost predicate Quiet(s: State) {
    s.q.front == s.q.fetched == |s.q.ios| && s.aio.pending == map[] && s.aio.submitQ == [] && !s.reaped
  }

  /** A discard on a quiet device; it enters the history as a write of the bytes it leaves. */
  ghost predicate Discard(s: State, s': State, w: Write) {
    && Quiet(s) && |w.data| % LBS == 0
    && s' == s.(q := s.q.(ios := s.q.ios + [Io(w, 0, 0, Submitted)], front := s.q.front + 1,
        fetched := s.q.fetched + 1),
                stat := s.stat.(discardLb := s.stat.discardLb + |w.data| / LBS,
                                writtenLb := s.stat.writtenLb + |w.data| / LBS),
                t := s.t.(log := s.t.log + [w], landed := s.t.landed + {|s.t.log|}, dev := s'.t.dev))
    && Same(s'.t.dev, Put(s.t.dev, w))
  }

  ghost predicate Clip(s: State, s': State) {
    s' == s.(stat := s.stat.(clippedLb := s'.stat.clippedLb))
  }

  ghost predicate Next(s: State, s': State) {
    || (exists w :: Append(s, s', w)) || (exists w :: Merge(s, s', w))
    || Fetch(s, s') || SubmitFirst(s, s') || ToKernel(s, s') || (exists c, d :: Kernel(s, s', c, d))
    || Report(s, s') || Reap(s, s') || (exists p :: DropFront(s, s', p)) || Delete(s, s')
    || (exists w :: Discard(s, s', w)) || Clip(s, s')
  }

  // ---- what all runs keep ----

  /** Every accepted block is written, overwritten or still queued. */
  ghost predicate StatOk(s: State) {
    && s.q.front <= |s.t.log|
    && LBS * (s.stat.normalLb + s.stat.discardLb)
       == LBS * (s.stat.writtenLb + s.stat.overwrittenLb) + SumLog(s.t.log, s.q.front, |s.t.log|)
  }

  /** Bytes of the first n IOs that ended in state st. */
  ghost function DoneSize(ios: seq<Io>, n: nat, st: IoState): nat
    requires n <= |ios|
  {
    if n == 0 then 0 else DoneSize(ios, n - 1, st) + if ios[n - 1].state == st then |ios[n - 1].w.data| else 0
  }

  /** A deleted IO counts as written if it was submitted, and as overwritten if it was skipped. */
  ghost predicate WrittenOk(s: State) {
    && s.q.front <= |s.q.ios|
    && LBS * s.stat.writtenLb == DoneSize(s.q.ios, s.q.front, Submitted)
    && LBS * s.stat.overwrittenLb == DoneSize(s.q.ios, s.q.front, Overwritten)
  }

  lemma {:induction false} DoneSizeSame(ios: seq<Io>, ios': seq<Io>, n: nat, st: IoState)
    requires n <= |ios| && n <= |ios'|
    requires forall i :: 0 <= i < n ==> ios'[i].w == ios[i].w && ios'[i].state == ios[i].state
    ensures DoneSize(ios', n, st) == DoneSize(ios, n, st)
  {
    if n > 0 { DoneSizeSame(ios, ios', n - 1, st); }
  }

  /** Steps that leave the deleted IOs alone. */
  lemma {:induction false} WrittenKept(s: State, s': State)
    requires WrittenOk(s) && s'.q.front == s.q.front <= |s'.q.ios|
    requires s'.stat.writtenLb == s.stat.writtenLb && s'.stat.overwrittenLb == s.stat.overwrittenLb
    requires forall i :: 0 <= i < s.q.front ==> s'.q.ios[i].w == s.q.ios[i].w && s'.q.ios[i].state == s.q.ios[i].state
    ensures WrittenOk(s')
  {
    DoneSizeSame(s.q.ios, s'.q.ios, s.q.front, Submitted);
    DoneSizeSame(s.q.ios, s'.q.ios, s.q.front, Overwritten);
  }

  lemma {:induction false} DeleteWritten(s: State, s': State)
    requires WrittenOk(s) && Delete(s, s') && s.q.ios[s.q.front].state != Init && |s.t.log[s.q.front].data| % LBS == 0
    ensures WrittenOk(s')
  {
    hide SetInv, ReadiedBy;
    var x := s.q.front;
    assert s'.q.ios[x].w == s.q.ios[x].w && s'.q.ios[x].state == s.q.ios[x].state;
    DoneSizeSame(s.q.ios, s'.q.ios, x, Submitted);
    DoneSizeSame(s.q.ios, s'.q.ios, x, Overwritten);
  }

  ghost predicate Inv(s: State) {
    match s case State(q, readyQ, ov, aio, _, reaped, mem, t) =>
      && QueuesOk(q.ios, q.front, q.fetched, readyQ.ioSet, ov, t.log)
      && DeviceOk(q.ios, if reaped then q.front + 1 else q.front, q.fetched, readyQ.doneSet, aio, t)
      && SizesOk(q, readyQ, t.log) && Ordered(t.log, readyQ.ioSet) && StatOk(s) && WrittenOk(s)
      && BuffersOk(mem, t.log, q.front)
      && (reaped ==> q.front < q.fetched <= |q.ios| && q.ios[q.front].state != Init && q.front !in readyQ.ioSet)
  }

  lemma {:induction false} InvInitial(s: State)
    requires Initial(s)
    ensures Inv(s)
  {
  }

  // ---- each step keeps the invariant ----

  lemma {:induction false} AppendSizes(s: State, s': State, w: Write)
    requires SizesOk(s.q, s.readyQ, s.t.log) && Ordered(s.t.log, s.readyQ.ioSet) && StatOk(s) && Append(s, s', w)
    ensures SizesOk(s'.q, s'.readyQ, s'.t.log) && Ordered(s'.t.log, s'.readyQ.ioSet) && StatOk(s')
  {
    OrderedSame(s.t.log, s'.t.log, s.readyQ.ioSet);
    var log, log', n := s.t.log, s'.t.log, |s.t.log|;
    SumLogSame(log, log', s.q.front, s.q.fetched);
    SumLogSame(log, log', s.q.fetched, n);
    SumLogSame(log, log', s.q.front, n);
    SumSetSame(log, log', s.readyQ.ioSet);
    forall i | s'.q.front <= i < |log'| ensures |log'[i].data| % LBS == 0 {
      if i < n { assert log'[i] == log[i]; }
    }
  }

  /** The first fetched IO stays backed by the memory when a write is merged into it. */
  lemma {:induction false} MergeBuffers(mem: Memory, log: seq<Write>, front: nat, f: nat, w: Write)
    requires BuffersOk(mem, log, front) && Backed(mem, w) && front <= f < |log| && CanMerge(log[f], w)
    ensures BuffersOk(mem, log[f := Merged(log[f], w)], front)
  {
    hide Backed, CanMerge;
    MergedIsBacked(mem, log[f], w);
  }

  lemma {:induction false} AppendBuffers(mem: Memory, log: seq<Write>, front: nat, w: Write)
    requires BuffersOk(mem, log, front) && Backed(mem, w)
    ensures BuffersOk(mem, log + [w], front)
  {
  }

  lemma {:induction false} RequestIsWrite(mem: Memory, log: seq<Write>, front: nat, x: nat)
    requires BuffersOk(mem, log, front) && front <= x < |log|
    ensures Request(mem, log[x]) == log[x]
  {
    BackedIsRead(mem, log[x]);
  }

  lemma {:induction false} LaterBuffers(mem: Memory, log: seq<Write>, front: nat)
    requires BuffersOk(mem, log, front)
    ensures BuffersOk(mem, log, front + 1)
  {
  }

  lemma {:induction false} NoBuffers(mem: Memory, log: seq<Write>, front: nat)
    requires |log| <= front
    ensures BuffersOk(mem, log, front)
  {
  }

  lemma {:induction false} InvAppend(s: State, s': State, w: Write)
    requires Inv(s) && Append(s, s', w)
    ensures Inv(s')
  {
    hide ShapeInv, SetInv, CountInv, ReadyInv, SkipInv, KeyInv, LandInv, DevInv, SubmitQInv, BuffersOk, SizesOk;
    AppendShape(s.q.ios, s.t.log, s.q.front, s.q.fetched, w);
    AppendSizes(s, s', w);
    EnterStep(s.q.ios, s'.q.ios, s.q.front, s.q.fetched, s.readyQ.ioSet, s.ov, s.readyQ.doneSet, s.aio, s.t, s'.t.log,
        Tracked(s));
    AppendBuffers(s'.mem, s.t.log, s.q.front, w);
    WrittenKept(s, s');
  }

  lemma {:induction false} MergeSizes(s: State, s': State, w: Write)
    requires SizesOk(s.q, s.readyQ, s.t.log) && Ordered(s.t.log, s.readyQ.ioSet) && StatOk(s) && Merge(s, s', w)
    requires s.q.ios[s.q.fetched].w == s.t.log[s.q.fetched]
    requires forall p :: 0 <= p < |s.readyQ.ioSet| ==> s.readyQ.ioSet[p] < s.q.fetched
    ensures SizesOk(s'.q, s'.readyQ, s'.t.log) && Ordered(s'.t.log, s'.readyQ.ioSet) && StatOk(s')
  {
    OrderedSame(s.t.log, s'.t.log, s.readyQ.ioSet);
    var log, log', f, n := s.t.log, s'.t.log, s.q.fetched, |s.t.log|;
    SumLogSame(log, log', s.q.front, f);
    SumLogSame(log, log', f + 1, n);
    SumLogFront(log, f, n);
    SumLogFront(log', f, n);
    SumLogSplit(log, s.q.front, f, n);
    SumLogSplit(log', s.q.front, f, n);
    SumSetSame(log, log', s.readyQ.ioSet);
  }

  lemma {:induction false} InvMerge(s: State, s': State, w: Write)
    requires Inv(s) && Merge(s, s', w)
    ensures Inv(s')
  {
    hide ShapeInv, SetInv, CountInv, ReadyInv, SkipInv, KeyInv, LandInv, DevInv, SubmitQInv, BuffersOk;
    PendingFacts(s);
    MergeShape(s.q.ios, s.t.log, s.q.front, s.q.fetched, w);
    ReadyBelow(s.q.ios, s.q.front, s.q.fetched, s.readyQ.ioSet);
    MergeSizes(s, s', w);
    EnterStep(s.q.ios, s'.q.ios, s.q.front, s.q.fetched, s.readyQ.ioSet, s.ov, s.readyQ.doneSet, s.aio, s.t, s'.t.log,
        Tracked(s));
    MergeBuffers(s'.mem, s.t.log, s.q.front, s.q.fetched, w);
    WrittenKept(s, s');
  }

  lemma {:induction false} FetchSizes(s: State, s': State)
    requires SizesOk(s.q, s.readyQ, s.t.log) && StatOk(s) && Fetch(s, s')
    ensures SizesOk(s'.q, s'.readyQ, s'.t.log) && StatOk(s')
  {
    var f := s.q.fetched;
    assert |s'.q.ios| == |s.q.ios|;
    hide Marked;
    SumLogFront(s.t.log, f, |s.t.log|);
    if s'.q.ios[f].nOverlapped == 0 {
      InsertSize(s'.q.ios, s.t.log, s.readyQ.ioSet, f);
    }
    hide Insert;
  }

  lemma {:induction false} FetchOrder(s: State, s': State)
    requires ShapeInv(s.q.ios, s.t.log, s.q.front, s.q.fetched) && Ordered(s.t.log, s.readyQ.ioSet) && Fetch(s, s')
    ensures Ordered(s'.t.log, s'.readyQ.ioSet)
  {
    if s'.q.ios[s.q.fetched].nOverlapped == 0 {
      OrderedInsert(s'.q.ios, s.t.log, s.readyQ.ioSet, s.q.fetched);
    }
  }

  lemma {:induction false} FetchWritten(s: State, s': State)
    requires WrittenOk(s) && Fetch(s, s') && s.q.front <= s.q.fetched
    ensures WrittenOk(s')
  {
    WrittenKept(s, s');
  }

  lemma {:induction false} InvFetch(s: State, s': State)
    requires Inv(s) && Fetch(s, s')
    ensures Inv(s')
  {
    hide ShapeInv, SetInv, CountInv, ReadyInv, SkipInv, KeyInv, LandInv, DevInv, SubmitQInv, BuffersOk, Marked, SizesOk;
    PendingFacts(s);
    FetchSizes(s, s');
    FetchOrder(s, s');
    FetchQueues(s.q.ios, s'.q.ios, s.q.front, s.q.fetched, s.readyQ.ioSet, s.ov, s.t.log);
    FetchDevice(s.q.ios, s'.q.ios, s.q.front, s.q.fetched, s.readyQ.doneSet, s.aio, s.t);
    FetchWritten(s, s');
  }

  lemma {:induction false} InvSubmitFirst(s: State, s': State)
    requires Inv(s) && SubmitFirst(s, s')
    ensures Inv(s')
  {
    hide ShapeInv, SetInv, CountInv, ReadyInv, SkipInv, KeyInv, LandInv, DevInv, SubmitQInv, BuffersOk;
    ReadyFacts(s);
    assert Ordered(s.t.log, s'.readyQ.ioSet) by {
      OrderedWithout(s.t.log, s.readyQ.ioSet, 0);
      assert Without(s.readyQ.ioSet, 0) == s.readyQ.ioSet[1..];
    }
    RequestIsWrite(s.mem, s.t.log, s.q.front, s.readyQ.ioSet[0]);
    SubmitStep(s.q.ios, s.q.front, s.q.fetched, s.readyQ.ioSet, s.readyQ.doneSet, s.ov, s.aio, s.t);
    WrittenKept(s, s');
  }

  lemma {:induction false} InvToKernel(s: State, s': State)
    requires Inv(s) && ToKernel(s, s')
    ensures Inv(s')
  {
    hide ShapeInv, SetInv, CountInv, ReadyInv, SkipInv, KeyInv, LandInv, DevInv, SubmitQInv, BuffersOk, SizesOk;
    MoveStep(s.q.ios, s.q.front, s.q.fetched, s.readyQ.doneSet, s.aio, s.t);
    WrittenKept(s, s');
  }

  lemma {:induction false} InvKernel(s: State, s': State, c: set<nat>, d: Device)
    requires Inv(s) && Kernel(s, s', c, d)
    ensures Inv(s')
  {
    hide ShapeInv, SetInv, CountInv, ReadyInv, SkipInv, KeyInv, LandInv, DevInv, SubmitQInv, BuffersOk, SizesOk,
         KernelStep;
    CompleteStep(s.q.ios, s.q.front, s.q.fetched, s.readyQ.ioSet, s.readyQ.doneSet, s.ov, s.aio, s.t, c, d);
    WrittenKept(s, s');
  }

  lemma {:induction false} InvReport(s: State, s': State)
    requires Inv(s) && Report(s, s')
    ensures Inv(s')
  {
    hide ShapeInv, SetInv, CountInv, ReadyInv, SkipInv, KeyInv, LandInv, DevInv, SubmitQInv, BuffersOk;
    ReportStep(s.q.ios, s.q.front, s.q.fetched, s.readyQ.doneSet, s.aio, s.t);
    WrittenKept(s, s');
  }

  lemma {:induction false} InvReap(s: State, s': State)
    requires Inv(s) && Reap(s, s')
    ensures Inv(s')
  {
    hide ShapeInv, SetInv, CountInv, ReadyInv, SkipInv, KeyInv, LandInv, DevInv, SubmitQInv, BuffersOk;
    SubmittedNotReady(s.q.ios, s.q.front, s.q.fetched, s.readyQ.ioSet, s.q.front);
    ReapStep(s.q.ios, s.q.front, s.q.fetched, s.readyQ.doneSet, s.aio, s.t, s.q.ios[s.q.front].aioKey);
    WrittenKept(s, s');
  }

  lemma {:induction false} DropFrontSizes(s: State, s': State, p: nat)
    requires SizesOk(s.q, s.readyQ, s.t.log) && Ordered(s.t.log, s.readyQ.ioSet) && StatOk(s) && DropFront(s, s', p)
    ensures SizesOk(s'.q, s'.readyQ, s'.t.log) && Ordered(s'.t.log, s'.readyQ.ioSet) && StatOk(s')
  {
    if p < |s.readyQ.ioSet| {
      SumSetRemove(s.t.log, s.readyQ.ioSet, p);
      OrderedWithout(s.t.log, s.readyQ.ioSet, p);
    }
  }

  lemma {:induction false} InvDropFront(s: State, s': State, p: nat)
    requires Inv(s) && DropFront(s, s', p)
    ensures Inv(s')
  {
    hide ShapeInv, SetInv, CountInv, ReadyInv, SkipInv, KeyInv, LandInv, DevInv, SubmitQInv, BuffersOk, SizesOk,
         Ordered;
    SkippedStep(s.q.ios, s.q.front, s.q.fetched, s.readyQ.doneSet, s.aio, s.t);
    DropFrontSizes(s, s', p);
    if p < |s.readyQ.ioSet| {
      EraseReady(s.q.ios, s.q.front, s.q.fetched, s.readyQ.ioSet, p);
    }
    WrittenKept(s, s');
  }

  lemma {:induction false} DeleteSizes(s: State, s': State)
    requires SizesOk(s.q, s.readyQ, s.t.log) && StatOk(s) && Delete(s, s')
    ensures SizesOk(s'.q, s'.readyQ, s'.t.log) && Ordered(s'.t.log, s'.readyQ.ioSet) && StatOk(s')
  {
    hide Released, SetInv, Ordered;
    SumLogFront(s.t.log, s.q.front, s.q.fetched);
    SumLogFront(s.t.log, s.q.front, |s.t.log|);
  }

  lemma {:induction false} InvDelete(s: State, s': State)
    requires Inv(s) && Delete(s, s')
    ensures Inv(s')
  {
    hide ShapeInv, SetInv, CountInv, ReadyInv, SkipInv, KeyInv, LandInv, DevInv, SubmitQInv, BuffersOk, Released,
         ReadiedBy, SizesOk;
    DeleteFacts(s);
    LaterBuffers(s.mem, s.t.log, s.q.front);
    DeleteSizes(s, s');
    DeleteQueues(s.q.ios, s'.q.ios, s.q.front, s.q.fetched, s.readyQ.ioSet, s'.readyQ.ioSet, s.ov, s'.ov, s.t.log,
        s'.readyQ.totalSize);
    DeleteDevice(s.q.ios, s'.q.ios, s.q.front, s.q.fetched, s.readyQ.doneSet, s.aio, s.t);
    DeleteWritten(s, s');
  }

  lemma {:induction false} DiscardWritten(s: State, s': State, w: Write)
    requires WrittenOk(s) && Discard(s, s', w)
    ensures WrittenOk(s')
  {
    DoneSizeSame(s.q.ios, s'.q.ios, s.q.front, Submitted);
    DoneSizeSame(s.q.ios, s'.q.ios, s.q.front, Overwritten);
  }

  lemma {:induction false} InvDiscard(s: State, s': State, w: Write)
    requires Inv(s) && Discard(s, s', w)
    ensures Inv(s')
  {
    hide ShapeInv, SetInv, CountInv, ReadyInv, SkipInv, KeyInv, LandInv, DevInv, SubmitQInv, BuffersOk;
    PendingFacts(s);
    NoBuffers(s'.mem, s'.t.log, s'.q.front);
    DiscardQueues(s.q.ios, s.readyQ.ioSet, s.ov, s.t.log, w);
    DiscardDevice(s.q.ios, s.readyQ.doneSet, s.aio, s.t, w, s'.t.dev);
    ReadyIsProcessing(s.q.ios, s.q.front, s.q.fetched, s.readyQ.ioSet);
    DiscardWritten(s, s', w);
  }

  lemma {:induction false} InvClip(s: State, s': State)
    requires Inv(s) && Clip(s, s')
    ensures Inv(s')
  {
    hide QueuesOk, DeviceOk, SizesOk;
    WrittenKept(s, s');
  }

  lemma {:induction false} InvStep(s: State, s': State)
    requires Inv(s) && Next(s, s')
    ensures Inv(s')
  {
    hide Inv, Append, Merge, Fetch, SubmitFirst, ToKernel, Kernel, Report, Reap, DropFront, Delete, Discard, Clip;
    if w :| Append(s, s', w) {
      InvAppend(s, s', w);
    } else if w :| Merge(s, s', w) {
      InvMerge(s, s', w);
    } else if Fetch(s, s') {
      InvFetch(s, s');
    } else if SubmitFirst(s, s') {
      InvSubmitFirst(s, s');
    } else if ToKernel(s, s') {
      InvToKernel(s, s');
    } else if c, d :| Kernel(s, s', c, d) {
      InvKernel(s, s', c, d);
    } else if Report(s, s') {
      InvReport(s, s');
    } else if Reap(s, s') {
      InvReap(s, s');
    } else if p :| DropFront(s, s', p) {
      InvDropFront(s, s', p);
    } else if Delete(s, s') {
      InvDelete(s, s');
    } else if w :| Discard(s, s', w) {
      InvDiscard(s, s', w);
    } else {
      InvClip(s, s');
    }
  }

  // ---- runs ----

  /** Any interleaving of the code's steps and the kernel's. */
  ghost predicate IsRun(run: seq<State>) {
    && run != [] && Initial(run[0])
    && forall i {:trigger StepAt(run, i)} :: 0 <= i < |run| - 1 ==> StepAt(run, i)
  }

  ghost predicate StepAt(run: seq<State>, i: nat)
    requires i < |run| - 1
  {
    Next(run[i], run[i + 1])
  }

  lemma {:induction false} RunKeepsInv(run: seq<State>, i: nat)
    requires IsRun(run) && i < |run|
    ensures Inv(run[i])
  {
    hide Inv, Next, Initial;
    if i == 0 {
      InvInitial(run[0]);
    } else {
      RunKeepsInv(run, i - 1);
      assert StepAt(run, i - 1);
      InvStep(run[i - 1], run[i]);
    }
  }

  /** In every state of every run: an IO is in the kernel's hands only when no earlier IO still queued
      overlaps it, so two requests in flight never share a byte. */
  lemma {:induction false} RunSerializesOverlaps(run: seq<State>, i: nat, x: nat, y: nat)
    requires IsRun(run) && i < |run|
    requires run[i].q.front <= x < y < run[i].q.fetched <= |run[i].q.ios|
    requires run[i].q.ios[y].state == Submitted
    ensures !Overlaps(run[i].q.ios[x].w, run[i].q.ios[y].w)
  {
    RunKeepsInv(run, i);
    var s := run[i];
    SubmittedHasNoEarlier(s.q.ios, s.t.log, s.q.front, s.q.fetched, x, y);
  }

  /** In every state of every run the memory holds the bytes of a pending request in its buffer, so the kernel writes
      them whenever it reads the buffer. */
  lemma {:induction false} RunBacksRequests(run: seq<State>, i: nat, k: nat)
    requires IsRun(run) && i < |run| && k in run[i].aio.pending
    ensures Backed(run[i].mem, run[i].aio.pending[k].w)
  {
    RunKeepsInv(run, i);
    hide Backed;
    var s := run[i];
    assert s.q.front <= s.t.owner[k] && s.aio.pending[k].w == s.t.log[s.t.owner[k]];
  }

  /** In every state of every run, `nOverlapped` of a processing IO counts the earlier, not yet deleted IOs
      that overlap it. */
  lemma {:induction false} RunCountsOverlaps(run: seq<State>, i: nat, y: nat)
    requires IsRun(run) && i < |run| && run[i].q.front <= y < run[i].q.fetched
    ensures var s := run[i];
            s.q.fetched <= |s.q.ios|
            && s.q.ios[y].nOverlapped == |set x | s.q.front <= x < y && Overlaps(s.q.ios[x].w, s.q.ios[y].w)|
  {
    RunKeepsInv(run, i);
    var s := run[i];
    CountsOverlaps(s.q.ios, s.t.log, s.q.front, s.q.fetched, y);
  }

  lemma {:induction false} CountsOverlaps(ios: seq<Io>, log: seq<Write>, front: nat, hi: nat, y: nat)
    requires ShapeInv(ios, log, front, hi) && CountInv(ios, log, front, hi) && front <= y < hi
    ensures ios[y].nOverlapped == |set x | front <= x < y && Overlaps(ios[x].w, ios[y].w)|
  {
    assert Earlier(log, front, y) == set x | front <= x < y && Overlaps(ios[x].w, ios[y].w);
  }

  /** Whenever a run is quiet, the device holds what doing the queue's writes one after the other would
      leave, skipped ones included; and every block counts as written or overwritten. */
  lemma {:induction false} QuietDeviceIsFifo(s: State)
    requires Inv(s) && Quiet(s)
    ensures IsFifoResult(s.t.log, s.t.dev0, s.t.dev)
    ensures s.stat.normalLb + s.stat.discardLb == s.stat.writtenLb + s.stat.overwrittenLb
    ensures LBS * s.stat.writtenLb == DoneSize(s.q.ios, |s.q.ios|, Submitted)
    ensures LBS * s.stat.overwrittenLb == DoneSize(s.q.ios, |s.q.ios|, Overwritten)
  {
    QuiescentDevice(s.q.ios, s.t.log, s.t.sk, s.aio, s.t.landed, s.t.dev0, s.t.dev);
  }

  lemma {:induction false} QuietRunIsFifo(run: seq<State>, i: nat)
    requires IsRun(run) && i < |run| && Quiet(run[i])
    ensures IsFifoResult(run[i].t.log, run[i].t.dev0, run[i].t.dev)
    ensures run[i].stat.normalLb + run[i].stat.discardLb == run[i].stat.writtenLb + run[i].stat.overwrittenLb
    ensures LBS * run[i].stat.writtenLb == DoneSize(run[i].q.ios, |run[i].q.ios|, Submitted)
    ensures LBS * run[i].stat.overwrittenLb == DoneSize(run[i].q.ios, |run[i].q.ios|, Overwritten)
  {
    hide Inv, Quiet;
    RunKeepsInv(run, i);
    QuietDeviceIsFifo(run[i]);
  }

  /** In every state of every run the byte counters equal the sums over their segments. */
  lemma {:induction false} RunKeepsSizes(run: seq<State>, i: nat)
    requires IsRun(run) && i < |run|
    ensures SizesOk(run[i].q, run[i].readyQ, run[i].t.log)
  {
    RunKeepsInv(run, i);
  }

  // ---- what the code may rely on ----

  /** The oldest IO waits for nothing; unsubmitted, it is in the ready set; submitted, its key is in
      exactly one place. */
  lemma {:induction false} FrontFacts(s: State)
    requires Inv(s) && s.q.front < s.q.fetched
    ensures s.q.fetched <= |s.q.ios| == |s.t.log| && s.q.ios[s.q.front].w == s.t.log[s.q.front]
    ensures s.q.ios[s.q.front].nOverlapped == 0
    ensures s.q.ios[s.q.front].state == Init ==> s.q.front in s.readyQ.ioSet
    ensures !s.reaped && s.q.ios[s.q.front].state == Submitted && s.t.sk == {} ==>
              var k := s.q.ios[s.q.front].aioKey;
              0 < k && (k in s.aio.pending || k in s.aio.completed || k in s.readyQ.doneSet)
    ensures |s.q.ios[s.q.front].w.data| <= s.q.processingSize
  {
    var x := s.q.front;
    assert Earlier(s.t.log, x, x) == {};
    SumLogFront(s.t.log, x, s.q.fetched);
    if !s.reaped && s.q.ios[x].state == Submitted {
      assert OnePlace(s.q.ios[x].aioKey, s.t.sk, s.aio, s.readyQ.doneSet);
    }
  }

  lemma {:induction false} ReadyFacts(s: State)
    requires Inv(s) && s.readyQ.ioSet != []
    ensures var x := s.readyQ.ioSet[0];
            && x < |s.q.ios| == |s.t.log| && s.q.ios[x].w == s.t.log[x] && s.q.ios[x].state != Submitted
            && s.q.ios[x].nOverlapped == 0 && |s.q.ios[x].w.data| <= s.readyQ.totalSize
            && s.q.front <= x < s.q.fetched
  {
    assert s.readyQ.ioSet[0] in s.readyQ.ioSet;
  }

  lemma {:induction false} ErasableFacts(s: State, p: nat)
    requires Inv(s) && p < |s.readyQ.ioSet|
    ensures var x := s.readyQ.ioSet[p];
            x < |s.q.ios| == |s.t.log| && s.q.ios[x].w == s.t.log[x] && |s.q.ios[x].w.data| <= s.readyQ.totalSize
  {
    SumSetRemove(s.t.log, s.readyQ.ioSet, p);
  }

  lemma {:induction false} KernelFacts(s: State, s': State, c: set<nat>, d: Device)
    requires Inv(s) && Kernel(s, s', c, d)
    ensures Inv(s') && |s'.aio.pending| == |s.aio.pending| - |c|
    ensures |s'.aio.pending| + |s'.aio.completed| == |s.aio.pending| + |s.aio.completed|
    ensures forall k :: k in s.aio.pending || k in s.aio.completed ==> k in s'.aio.pending || k in s'.aio.completed
  {
    hide Inv, KernelStep;
    PendingFacts(s);
    CardMinus(s.aio.pending, c);
    CardPlus(s.aio.pending, s.aio.completed, c);
    InvKernel(s, s', c, d);
  }

  lemma {:induction false} DeleteFacts(s: State)
    requires Inv(s) && s.reaped
    ensures s.q.front < s.q.fetched <= |s.q.ios| == |s.t.log| && s.q.ios[s.q.front].w == s.t.log[s.q.front]
    ensures |s.t.log[s.q.front].data| <= s.q.processingSize && s.q.front !in s.readyQ.ioSet
    ensures |s.t.log[s.q.front].data| % LBS == 0 && s.q.ios[s.q.front].state != Init
    ensures QueuesOk(s.q.ios, s.q.front, s.q.fetched, s.readyQ.ioSet, s.ov, s.t.log)
    ensures Ordered(s.t.log, s.readyQ.ioSet) && forall p :: 0 <= p < |s.readyQ.ioSet| ==> s.readyQ.ioSet[p] < |s.t.log|
    ensures s.readyQ.totalSize == SumSet(s.t.log, s.readyQ.ioSet)
  {
    FrontFacts(s);
  }

  lemma {:induction false} MergeFacts(s: State, w: Write)
    requires Inv(s) && Sized(w) && s.q.fetched < |s.q.ios|
    ensures |s.q.ios| == |s.t.log| && s.q.ios[s.q.fetched].w == s.t.log[s.q.fetched]
    ensures |s.t.log[s.q.fetched].data| + |w.data| < TWO32 ==> Sized(Merged(s.t.log[s.q.fetched], w))
  {
    hide SetInv, CountInv, ReadyInv, SkipInv, KeyInv, LandInv, DevInv, SubmitQInv, Ordered;
  }

  lemma {:induction false} HeadFacts(s: State)
    requires Inv(s) && s.aio.submitQ != []
    ensures s.aio.submitQ[0].key !in s.aio.pending
  {
    MoveQueue(s.t.log, s.t.sk, s.aio, s.t.owner);
  }

  lemma {:induction false} NoHeadFacts(s: State)
    requires Inv(s) && s.aio.submitQ == []
    ensures s.t.sk == {}
  {
  }

  /** `equal_range` in the ready set finds the front IO if it is there. */
  lemma {:induction false} FrontPlace(s: State)
    requires Inv(s) && s.q.front < s.q.fetched <= |s.q.ios|
    ensures forall p :: 0 <= p < |s.readyQ.ioSet| ==> s.readyQ.ioSet[p] < |s.q.ios|
    ensures var k := s.q.ios[s.q.front].w.offset;
            && (s.q.front in s.readyQ.ioSet ==> s.q.front in s.readyQ.ioSet[LowerBound(s.q.ios, s.readyQ.ioSet, k)..])
            && (forall p :: UpperBound(s.q.ios, s.readyQ.ioSet, k) <= p < |s.readyQ.ioSet|
                            ==> s.readyQ.ioSet[p] != s.q.front)
  {
    InEqualRange(s.q.ios, s.t.log, s.readyQ.ioSet, s.q.front);
  }

  lemma {:induction false} FetchedFacts(s: State)
    requires Inv(s) && s.q.fetched < |s.q.ios|
    ensures |s.q.ios| == |s.t.log| && s.q.ios[s.q.fetched].w == s.t.log[s.q.fetched]
    ensures |s.t.log[s.q.fetched].data| <= s.q.fetchedSize && s.q.front <= s.q.fetched
    ensures ShapeInv(s.q.ios, s.t.log, s.q.front, s.q.fetched)
    ensures SetInv(s.t.log, s.q.front, s.q.fetched, s.ov.ioSet, s.ov.maxSize)
    ensures forall p :: 0 <= p < |s.ov.ioSet| ==> s.ov.ioSet[p] < |s.q.ios|
    ensures forall p :: 0 <= p < |s.readyQ.ioSet| ==> s.readyQ.ioSet[p] < |s.q.ios|
  {
    SumLogFront(s.t.log, s.q.fetched, |s.t.log|);
  }

  lemma {:induction false} PendingFacts(s: State)
    requires Inv(s)
    ensures s.aio.pending.Keys <= s.t.owner.Keys && (forall k :: k in s.aio.pending ==> k !in s.aio.completed)
    ensures s.aio.pending != map[] ==> s.q.front < s.q.fetched
    ensures s.q.front <= s.q.fetched <= |s.q.ios| == |s.t.log|
    ensures 0 < s.q.processingSize ==> s.q.front < s.q.fetched
    ensures |s.aio.submitQ| + |s.aio.pending| <= s.aio.queueSize
  {
    if k :| k in s.aio.pending {
      assert s.t.owner[k] < s.q.fetched;
    }
  }

  /** An empty queue leaves nothing behind: the asserts of `waitForAllProcessingIos`. */
  lemma {:induction false} DrainedFacts(s: State)
    requires Inv(s) && s.q.front == s.q.fetched
    ensures s.aio.pending == map[] && s.ov.ioSet == [] && s.readyQ.ioSet == [] && s.readyQ.totalSize == 0
    ensures s.aio.submitQ == [] && !s.reaped
  {
    PendingFacts(s);
    ReadyIsProcessing(s.q.ios, s.q.front, s.q.fetched, s.readyQ.ioSet);
    SetIsProcessing(s.t.log, s.q.front, s.q.fetched, s.ov.ioSet, s.ov.maxSize);
    SubmitQIsProcessing(s.q.ios, s.t.log, s.q.front, s.q.fetched, s.t.sk, s.aio, s.readyQ.doneSet, s.t.owner);
  }
}
