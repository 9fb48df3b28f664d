/** The writer's state as a whole, and its steps. */
module WriterOps {
  import opened BlockWrites
  import opened RangeUtil
  import opened WriterState
  import opened WriterSteps
  import opened Serializer

  const LBS: nat := 512

  /** What the proof remembers: the device at the start and now, the writes in queue order, which of
      them landed, which IO an aio key belongs to, and the keys in the submit queue. */
  datatype Trace = Trace(dev0: Device, dev: Device, log: seq<Write>, landed: set<nat>,
                               owner: map<nat, nat>, sk: set<nat>)

  /** The queues, the serializer and the IO states. */
  ghost predicate QueuesOk(ios: seq<Io>, front: nat, hi: nat, ready: seq<nat>, ov: OverlappedSerializer,
                           log: seq<Write>) {
    match ov case OverlappedSerializer(ioSet, maxSize) =>
      && ShapeInv(ios, log, front, hi)
      && SetInv(log, front, hi, ioSet, maxSize)
      && CountInv(ios, log, front, hi)
      && ReadyInv(ios, front, hi, ready)
      && SkipInv(ios, log, hi)
  }

  /** The requests and the device; `lo` is the first IO whose key is still tracked. */
  ghost predicate DeviceOk(ios: seq<Io>, lo: nat, hi: nat, done: set<nat>, aio: Aio, t: Trace) {
    match t case Trace(dev0, dev, log, landed, owner, sk) =>
      && hi <= |ios| == |log|
      && KeyInv(ios, log, lo, hi, sk, aio, done, owner)
      && LandInv(ios, lo, hi, sk, aio, landed)
      && DevInv(log, hi, landed, aio.pending, dev0, dev)
      && SubmitQInv(log, aio.submitQ, sk, owner)
      && |aio.submitQ| + |aio.pending| <= aio.queueSize
  }

  /** The byte counters are the sums over their segments. */
  ghost predicate SizesOk(q: IoQueue, readyQ: ReadyQueue, log: seq<Write>) {
    && q.front <= q.fetched <= |log|
    && (forall p :: 0 <= p < |readyQ.ioSet| ==> readyQ.ioSet[p] < |log|)
    && q.processingSize == SumLog(log, q.front, q.fetched)
    && q.fetchedSize == SumLog(log, q.fetched, |log|)
    && readyQ.totalSize == SumSet(log, readyQ.ioSet)
    && (forall i :: q.front <= i < |log| ==> |log[i].data| % LBS == 0)
  }

  // ---- Aio ----

  lemma {:induction false} CardMinus(p: map<nat, AioData>, c: set<nat>)
    requires c <= p.Keys
    ensures |p - c| == |p| - |c|
  {
    assert (p - c).Keys == p.Keys - c;
  }

  lemma {:induction false} CardPlus(p: map<nat, AioData>, done: map<nat, AioData>, c: set<nat>)
    requires c <= p.Keys && forall k :: k in c ==> k !in done
    ensures |done + (map k | k in c :: p[k])| == |done| + |c|
  {
    var m := map k | k in c :: p[k];
    assert m.Keys == c;
    assert (done + m).Keys == done.Keys + c;
    assert done.Keys !! c;
  }

  /** One possible outcome: each completed request's bytes, over the old device. */
  ghost function Outcome(pending: map<nat, AioData>, c: set<nat>, dev: Device, a: nat): byte
    requires c <= pending.Keys
  {
    if exists k :: k in c && Covers(pending[k].w, a) then
      var k :| k in c && Covers(pending[k].w, a);
      pending[k].w.data[a - pending[k].w.offset]
    else dev(a)
  }

  lemma {:induction false} KernelCanStep(pending: map<nat, AioData>, c: set<nat>, dev: Device)
    requires c <= pending.Keys
    ensures exists d: Device :: KernelStep(pending, c, dev, d)
  {
    var d: Device := (a: nat) => Outcome(pending, c, dev, a);
    forall a: nat | !InFlight(pending, a) ensures d(a) == dev(a) {
      assert forall k :: k in c ==> k in pending && !Covers(pending[k].w, a);
    }
    forall a: nat, k | k in c && Covers(pending[k].w, a) && OnlyOne(pending, k, a)
      ensures d(a) == pending[k].w.data[a - pending[k].w.offset]
    {
      assert forall k' :: k' in c && Covers(pending[k'].w, a) ==> k' == k;
    }
    assert KernelStep(pending, c, dev, d);
  }

  /** `wait_`: the kernel completes the requests c. */
  function Completed(aio: Aio, c: set<nat>): Aio
    requires c <= aio.pending.Keys
  {
    aio.(pending := aio.pending - c, completed := aio.completed + (map k | k in c :: aio.pending[k]))
  }

  lemma {:induction false} CompleteStep(ios: seq<Io>, front: nat, hi: nat, ready: seq<nat>, done: set<nat>,
                                        ov: OverlappedSerializer,
                     aio: Aio, t: Trace, c: set<nat>, d: Device)
    requires QueuesOk(ios, front, hi, ready, ov, t.log) && DeviceOk(ios, front, hi, done, aio, t)
    requires KernelStep(aio.pending, c, t.dev, d)
    ensures c <= t.owner.Keys
    ensures DeviceOk(ios, front, hi, done, Completed(aio, c),
                     t.(dev := d, landed := t.landed + OwnersOf(t.owner, c)))
    ensures |Completed(aio, c).pending| == |aio.pending| - |c|
    ensures |Completed(aio, c).completed| == |aio.completed| + |c|
  {
    KernelDev(ios, t.log, front, hi, t.sk, aio, done, t.owner, t.landed, t.dev0, t.dev, c, d);
    KernelRest(ios, t.log, front, hi, t.sk, aio, done, t.owner, t.landed, c);
    CardMinus(aio.pending, c);
    CardPlus(aio.pending, aio.completed, c);
  }

  /** `ReadyQueue::waitAny` files the completed keys in the done set. */
  lemma {:induction false} ReportStep(ios: seq<Io>, lo: nat, hi: nat, done: set<nat>, aio: Aio, t: Trace)
    requires DeviceOk(ios, lo, hi, done, aio, t)
    ensures DeviceOk(ios, lo, hi, done + aio.completed.Keys, aio.(completed := map[]), t)
  {
    ReportKey(ios, t.log, lo, hi, t.sk, aio, done, t.owner);
    LandFrame(ios, lo, hi, t.sk, aio, aio.(completed := map[]), t.landed);
  }

  /** The front IO, found complete, is no longer tracked. */
  lemma {:induction false} ReapStep(ios: seq<Io>, lo: nat, hi: nat, done: set<nat>, aio: Aio, t: Trace, k: nat)
    requires DeviceOk(ios, lo, hi, done, aio, t) && lo < hi <= |ios| && ios[lo].state == Submitted
    requires k == ios[lo].aioKey && (k in aio.completed || k in done)
    ensures DeviceOk(ios, lo + 1, hi, done - {k}, aio.(completed := aio.completed - {k}), t.(owner := t.owner - {k}))
  {
    ReapKey(ios, t.log, lo, hi, t.sk, aio, done, t.owner, t.landed, k);
    SubmitQForget(t.log, aio.submitQ, t.sk, t.owner, k);
  }

  lemma {:induction false} SubmitQForget(log: seq<Write>, s: seq<AioData>, sk: set<nat>, owner: map<nat, nat>, k: nat)
    requires SubmitQInv(log, s, sk, owner) && k !in sk
    ensures SubmitQInv(log, s, sk, owner - {k})
  {
    forall d | d in s ensures d.key in owner - {k} {
      KeyOfMember(s, d);
    }
  }

  lemma {:induction false} KeyOfMember(s: seq<AioData>, d: AioData)
    requires d in s
    ensures d.key in KeysOf(s)
  {
    if s[0] != d { KeyOfMember(s[1..], d); }
  }

  /** A skipped front IO is not tracked. */
  lemma {:induction false} SkippedStep(ios: seq<Io>, lo: nat, hi: nat, done: set<nat>, aio: Aio, t: Trace)
    requires DeviceOk(ios, lo, hi, done, aio, t) && lo < hi <= |ios| && ios[lo].state == Overwritten
    ensures DeviceOk(ios, lo + 1, hi, done, aio, t)
  {
    SkippedKey(ios, t.log, lo, hi, t.sk, aio, done, t.owner);
    SkippedLand(ios, lo, hi, t.sk, aio, t.landed);
  }

  /** `Aio::submit`, one request. */
  lemma {:induction false} MoveStep(ios: seq<Io>, lo: nat, hi: nat, done: set<nat>, aio: Aio, t: Trace)
    requires DeviceOk(ios, lo, hi, done, aio, t) && aio.submitQ != []
    ensures DeviceOk(ios, lo, hi, done, MoveHead(aio), t.(sk := t.sk - {aio.submitQ[0].key}))
    ensures |MoveHead(aio).submitQ| + |MoveHead(aio).pending| == |aio.submitQ| + |aio.pending|
  {
    MoveQueue(t.log, t.sk, aio, t.owner);
    MoveToPending(ios, t.log, lo, hi, t.sk, aio, done, t.owner, t.landed);
    DevWeaken(t.log, hi, t.landed, aio.pending, MoveHead(aio).pending, t.dev0, t.dev);
    CardMove(aio);
  }

  lemma {:induction false} CardMove(aio: Aio)
    requires aio.submitQ != [] && aio.submitQ[0].key !in aio.pending
    ensures |MoveHead(aio).submitQ| + |MoveHead(aio).pending| == |aio.submitQ| + |aio.pending|
  {
    assert MoveHead(aio).pending.Keys == aio.pending.Keys + {aio.submitQ[0].key};
  }

  // ---- ReadyQueue ----

  /** The first ready IO leaves the ready set; if it was not skipped it is handed to aio. */
  lemma {:induction false} SubmitStep(ios: seq<Io>, front: nat, hi: nat, ready: seq<nat>, done: set<nat>,
                                      ov: OverlappedSerializer,
                   aio: Aio, t: Trace)
    requires QueuesOk(ios, front, hi, ready, ov, t.log) && DeviceOk(ios, front, hi, done, aio, t) && ready != []
    requires |aio.submitQ| + |aio.pending| < aio.queueSize
    ensures front <= ready[0] < hi && ios[ready[0]].state != Submitted
    ensures ios[ready[0]].state == Overwritten ==> QueuesOk(ios, front, hi, ready[1..], ov, t.log)
    ensures ios[ready[0]].state == Init ==>
              var x := ready[0];
              var ios' := ios[x := ios[x].(state := Submitted, aioKey := aio.key)];
              QueuesOk(ios', front, hi, ready[1..], ov, t.log)
              && DeviceOk(ios', front, hi, done, AddRequest(aio, ios[x].w),
                          t.(owner := t.owner[aio.key := x], sk := t.sk + {aio.key}))
  {
    var x := ready[0];
    assert x in ready;
    SubmitReady(ios, front, hi, ready, aio.key);
    if ios[x].state == Init {
      SubmitRest(ios, t.log, front, hi, x, t.sk, aio, t.landed);
      SubmitKey(ios, t.log, front, hi, x, t.sk, aio, done, t.owner);
      SubmitQueue(t.log, x, t.sk, aio, t.owner);
    }
  }

  // ---- the front IO leaves, a fetched IO enters ----

  lemma {:induction false} DeleteQueues(ios: seq<Io>, ios': seq<Io>, x: nat, hi: nat, ready: seq<nat>, ready': seq<nat>,
                     ov: OverlappedSerializer, ov': OverlappedSerializer, log: seq<Write>, total': nat)
    requires QueuesOk(ios, x, hi, ready, ov, log)
    requires x < hi && ios[x].state != Init && x !in ready
    requires SetInv(log, x + 1, hi, ov'.ioSet, ov'.maxSize)
    requires Released(ios, ios', log, x, hi)
    requires ReadiedBy(ios', log, ready, ready', Waiters(log, x, hi), total')
    ensures QueuesOk(ios', x + 1, hi, ready', ov', log)
  {
    DelCount(ios, ios', log, x, hi);
    DelReady(ios, ios', log, x, hi, ready, ready');
    DelSkip(ios, ios', log, x, hi);
  }

  lemma {:induction false} DeleteDevice(ios: seq<Io>, ios': seq<Io>, x: nat, hi: nat, done: set<nat>, aio: Aio,
                                        t: Trace)
    requires x < hi && ShapeInv(ios, t.log, x, hi) && DeviceOk(ios, x + 1, hi, done, aio, t)
    requires Released(ios, ios', t.log, x, hi)
    ensures DeviceOk(ios', x + 1, hi, done, aio, t)
  {
    DelKeyLand(ios, ios', t.log, x, hi, t.sk, aio, done, t.owner, t.landed);
  }

  /** The serializer after inserting IO f. */
  function AddToSet(ov: OverlappedSerializer, ios: seq<Io>, f: nat): OverlappedSerializer
    requires f < |ios| && forall p :: 0 <= p < |ov.ioSet| ==> ov.ioSet[p] < |ios|
  {
    OverlappedSerializer(Insert(ios, ov.ioSet, f),
                         if ov.maxSize < |ios[f].w.data| then |ios[f].w.data| else ov.maxSize)
  }

  /** The ready set after `push` of IO f, if it has nothing to wait for. */
  function AddIfReady(ready: seq<nat>, ios: seq<Io>, f: nat): seq<nat>
    requires f < |ios| && forall p :: 0 <= p < |ready| ==> ready[p] < |ios|
  {
    if ios[f].nOverlapped == 0 then Insert(ios, ready, f) else ready
  }

  lemma {:induction false} FetchQueues(ios: seq<Io>, ios': seq<Io>, front: nat, f: nat, ready: seq<nat>,
                                       ov: OverlappedSerializer,
                    log: seq<Write>)
    requires QueuesOk(ios, front, f, ready, ov, log) && f < |ios| && Marked(ios, ios', log, front, f)
    ensures QueuesOk(ios', front, f + 1, AddIfReady(ready, ios', f), AddToSet(ov, ios, f), log)
  {
    FetchCount(ios, ios', log, front, f);
    FetchReady(ios, ios', log, front, f, ready);
    FetchSkip(ios, ios', log, front, f);
    FetchSet(ios, log, front, f, ov.ioSet, ov.maxSize);
  }

  lemma {:induction false} FetchDevice(ios: seq<Io>, ios': seq<Io>, front: nat, f: nat, done: set<nat>, aio: Aio,
                                       t: Trace)
    requires ShapeInv(ios, t.log, front, f) && f < |ios|
    requires DeviceOk(ios, front, f, done, aio, t) && Marked(ios, ios', t.log, front, f)
    ensures DeviceOk(ios', front, f + 1, done, aio, t)
  {
    FetchKeyLand(ios, ios', t.log, front, f, t.sk, aio, done, t.owner, t.landed);
    FetchDev(t.log, f, t.landed, aio.pending, t.dev0, t.dev);
  }

  // ---- a request enters the queue ----

  lemma {:induction false} EnterStep(ios: seq<Io>, ios': seq<Io>, front: nat, hi: nat, ready: seq<nat>,
                                     ov: OverlappedSerializer,
                  done: set<nat>, aio: Aio, t: Trace, log': seq<Write>, lo: nat)
    requires QueuesOk(ios, front, hi, ready, ov, t.log) && DeviceOk(ios, lo, hi, done, aio, t)
    requires ShapeInv(ios', log', front, hi) && SameBelow(t.log, log', hi)
    requires forall i :: 0 <= i < hi ==> ios[i] == ios'[i]
    ensures QueuesOk(ios', front, hi, ready, ov, log')
    ensures DeviceOk(ios', lo, hi, done, aio, t.(log := log'))
  {
    PrepareKeeps(ios, ios', t.log, log', front, hi, ov.ioSet, ov.maxSize, ready);
    PrepareKeyLand(ios, ios', t.log, log', lo, hi, t.sk, aio, done, t.owner, t.landed);
    PrepareDev(t.log, log', hi, t.landed, aio.pending, t.dev0, t.dev);
    forall d | d in aio.submitQ
      ensures d.key in t.owner && t.owner[d.key] < |log'| && d.w == log'[t.owner[d.key]]
    {
      assert t.owner[d.key] < hi;
    }
  }

  // ---- discard ----

  lemma {:induction false} DiscardQueues(ios: seq<Io>, ready: seq<nat>, ov: OverlappedSerializer, log: seq<Write>,
                                         w: Write)
    requires QueuesOk(ios, |ios|, |ios|, ready, ov, log)
    ensures QueuesOk(ios + [Io(w, 0, 0, Submitted)], |ios| + 1, |ios| + 1, ready, ov, log + [w])
  {
    DiscardSkip(ios, log, w);
  }

  lemma {:induction false} DiscardDev(log: seq<Write>, landed: set<nat>, pending: map<nat, AioData>, dev0: Device,
                                      dev: Device, w: Write,
                   dev': Device)
    requires pending == map[] && DevInv(log, |log|, landed, pending, dev0, dev) && |log| !in landed
    requires Same(dev', Put(dev, w))
    ensures DevInv(log + [w], |log| + 1, landed + {|log|}, pending, dev0, dev')
  {
    forall a: nat ensures dev'(a) == LiveByte(log + [w], landed + {|log|}, |log| + 1, a, dev0) {
      assert !InFlight(pending, a);
      LiveByteSame(log, log + [w], landed, landed + {|log|}, |log|, a, dev0);
    }
  }

  lemma {:induction false} DiscardDevice(ios: seq<Io>, done: set<nat>, aio: Aio, t: Trace, w: Write, dev': Device)
    requires DeviceOk(ios, |ios|, |ios|, done, aio, t)
    requires aio.pending == map[] && Same(dev', Put(t.dev, w))
    ensures DeviceOk(ios + [Io(w, 0, 0, Submitted)], |ios| + 1, |ios| + 1, done, aio,
                     t.(log := t.log + [w], landed := t.landed + {|t.log|}, dev := dev'))
  {
    DiscardDev(t.log, t.landed, aio.pending, t.dev0, t.dev, w, dev');
    DiscardKey(ios, t.log, t.sk, aio, done, t.owner, w);
    DiscardLand(ios, t.sk, aio, t.landed, w);
  }
}
