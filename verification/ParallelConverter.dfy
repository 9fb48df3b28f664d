/**
 `ParallelConverter` (include/thread_util.hpp): one producer, any number of workers, one consumer, and `sync`
 or `fail` called at any time. A step is one completed operation on one of the two FIFO queues.
 */
module ParallelConverters {
  datatype Src<T1> = Src(id: nat, t1: T1)
  datatype Dst<T2> = Dst(id: nat, t2: T2)

  /** `runWorker`; a worker that caught an exception still has to fail both queues. */
  datatype Worker<T1> = Idle | Holding(src: Src<T1>) | FailIn | FailOut | Exited

  /** Where an item is. */
  datatype Place = InQ | Held(w: nat) | OutQ | Stored | Delivered | Lost

  /** `pushed`, `delivered` and `place` record the history; `waiting`: `pop` looked in its map and waits on outQ. */
  datatype State<T1, T2> = State(
    inQ: seq<Src<T1>>, inClosed: bool, inFailed: bool,
    outQ: seq<Dst<T2>>, outClosed: bool, outFailed: bool,
    workers: map<nat, Worker<T1>>, stored: map<nat, T2>, pushId: nat, popId: nat, waiting: bool,
    pushed: seq<T1>, delivered: seq<T2>, place: map<nat, Place>)

  ghost predicate Initial<T1, T2>(s: State<T1, T2>) {
    && s.inQ == [] && !s.inClosed && !s.inFailed && s.outQ == [] && !s.outClosed && !s.outFailed
    && (forall w :: w in s.workers ==> s.workers[w] == Idle)
    && s.stored == map[] && s.pushId == 0 && s.popId == 0 && !s.waiting && s.pushed == [] && s.delivered == []
        && s.place == map[]
  }

  // ---- steps ----

  /** `push` */
  ghost predicate Push<T1, T2>(s: State<T1, T2>, s': State<T1, T2>, t1: T1) {
    && !s.inClosed && !s.inFailed
    && s' == s.(inQ := s.inQ + [Src(s.pushId, t1)], pushId := s.pushId + 1, pushed := s.pushed + [t1],
                place := s.place[s.pushId := InQ])
  }

  /** A worker takes an item. */
  ghost predicate Take<T1, T2>(s: State<T1, T2>, s': State<T1, T2>, w: nat) {
    && w in s.workers && s.workers[w] == Idle && !s.inFailed && s.inQ != []
    && s' == s.(inQ := s.inQ[1..], workers := s.workers[w := Holding(s.inQ[0])],
        place := s.place[s.inQ[0].id := Held(w)])
  }

  /** A worker hands over the converted item. */
  ghost predicate Give<T1, T2>(s: State<T1, T2>, s': State<T1, T2>, conv: T1 -> T2, w: nat) {
    && w in s.workers && s.workers[w].Holding? && !s.outClosed && !s.outFailed
    && var src := s.workers[w].src;
       s' == s.(outQ := s.outQ + [Dst(src.id, conv(src.t1))], workers := s.workers[w := Idle],
                place := s.place[src.id := OutQ])
  }

  /** An exception in a worker: the conversion throws, or one of the queues is closed or failed. */
  ghost predicate Throw<T1, T2>(s: State<T1, T2>, s': State<T1, T2>, w: nat) {
    && w in s.workers
    && (s.workers[w].Holding? || (s.workers[w] == Idle && s.inFailed))
    && s' == s.(workers := s.workers[w := FailIn],
                place := if s.workers[w].Holding? then s.place[s.workers[w].src.id := Lost] else s.place)
  }

  /** The handler of that exception, in two steps. */
  ghost predicate Cleanup<T1, T2>(s: State<T1, T2>, s': State<T1, T2>, w: nat) {
    && w in s.workers
    && ((s.workers[w] == FailIn && s' == s.(inClosed := true, inFailed := true, workers := s.workers[w := FailOut]))
        || (s.workers[w] == FailOut && s' == s.(outClosed := true, outFailed := true,
            workers := s.workers[w := Exited])))
  }

  /** A worker ends because there is nothing more to do. */
  ghost predicate Exit<T1, T2>(s: State<T1, T2>, s': State<T1, T2>, w: nat) {
    && w in s.workers && s.workers[w] == Idle && !s.inFailed && s.inClosed && s.inQ == []
    && s' == s.(workers := s.workers[w := Exited])
  }

  /** `sync`: closes inQ, and once the workers have ended, outQ. */
  ghost predicate SyncIn<T1, T2>(s: State<T1, T2>, s': State<T1, T2>) {
    !s.inFailed && s' == s.(inClosed := true)
  }

  ghost predicate SyncOut<T1, T2>(s: State<T1, T2>, s': State<T1, T2>) {
    && s.inClosed && (forall w :: w in s.workers ==> s.workers[w] == Exited)
    && !s.outFailed && s' == s.(outClosed := true)
  }

  /** `fail`, from any thread, in two steps. */
  ghost predicate FailStep<T1, T2>(s: State<T1, T2>, s': State<T1, T2>) {
    s' == s.(inClosed := true, inFailed := true) || s' == s.(outClosed := true, outFailed := true)
  }

  /** `pop` finds its item in the map. */
  ghost predicate PopStored<T1, T2>(s: State<T1, T2>, s': State<T1, T2>) {
    && !s.waiting && IsFirst(s.stored, s.popId)
    && s' == s.(stored := s.stored - {s.popId}, popId := s.popId + 1, delivered := s.delivered + [s.stored[s.popId]],
                place := s.place[s.popId := Delivered])
  }

  /** `map_.begin()->first == id` */
  ghost predicate IsFirst<T2>(m: map<nat, T2>, id: nat) {
    id in m && forall j :: j in m ==> id <= j
  }

  ghost predicate PopWait<T1, T2>(s: State<T1, T2>, s': State<T1, T2>) {
    !s.waiting && !IsFirst(s.stored, s.popId) && s' == s.(waiting := true)
  }

  /** The loop of `pop` gets the item it wants, or another one, which it keeps in the map. */
  ghost predicate PopOut<T1, T2>(s: State<T1, T2>, s': State<T1, T2>) {
    && s.waiting && !s.outFailed && s.outQ != [] && s.outQ[0].id == s.popId
    && s' == s.(outQ := s.outQ[1..], popId := s.popId + 1, delivered := s.delivered + [s.outQ[0].t2], waiting := false,
                place := s.place[s.popId := Delivered])
  }

  ghost predicate PopOther<T1, T2>(s: State<T1, T2>, s': State<T1, T2>) {
    && s.waiting && !s.outFailed && s.outQ != [] && s.outQ[0].id != s.popId
    && var dst := s.outQ[0];
       s' == s.(outQ := s.outQ[1..], place := s.place[dst.id := Stored],
                stored := if dst.id in s.stored then s.stored else s.stored[dst.id := dst.t2])
  }

  /** `pop` is about to return false. */
  ghost predicate PopEnds<T1, T2>(s: State<T1, T2>) {
    s.waiting && !s.outFailed && s.outClosed && s.outQ == []
  }

  /** `pop` ends by returning false or by an exception. */
  ghost predicate PopStops<T1, T2>(s: State<T1, T2>, s': State<T1, T2>) {
    (PopEnds(s) || (s.waiting && s.outFailed)) && s' == s.(waiting := false)
  }

  ghost predicate Next<T1(!new), T2>(s: State<T1, T2>, s': State<T1, T2>, conv: T1 -> T2) {
    || (exists t1 :: Push(s, s', t1)) || (exists w :: Take(s, s', w)) || (exists w :: Give(s, s', conv, w))
    || (exists w :: Throw(s, s', w)) || (exists w :: Cleanup(s, s', w)) || (exists w :: Exit(s, s', w))
    || SyncIn(s, s') || SyncOut(s, s') || FailStep(s, s')
    || PopStored(s, s') || PopWait(s, s') || PopOut(s, s') || PopOther(s, s') || PopStops(s, s')
  }

  // ---- what every interleaving keeps ----

  /** Every item carries its own value, converted once it is past a worker. */
  ghost predicate ValuesOk<T1, T2>(s: State<T1, T2>, conv: T1 -> T2) {
    && |s.pushed| == s.pushId && |s.delivered| == s.popId <= s.pushId
    && (forall k :: 0 <= k < |s.inQ| ==> s.inQ[k].id < s.pushId && s.inQ[k].t1 == s.pushed[s.inQ[k].id])
    && (forall w :: w in s.workers && s.workers[w].Holding? ==>
          s.workers[w].src.id < s.pushId && s.workers[w].src.t1 == s.pushed[s.workers[w].src.id])
    && (forall k :: 0 <= k < |s.outQ| ==> s.outQ[k].id < s.pushId && s.outQ[k].t2 == conv(s.pushed[s.outQ[k].id]))
    && (forall id :: id in s.stored ==> id < s.pushId && s.stored[id] == conv(s.pushed[id]))
    && (forall k :: 0 <= k < s.popId ==> s.delivered[k] == conv(s.pushed[k]))
  }

  /** Every item in a queue, a hand or the map is at no other place. */
  ghost predicate EntriesOk<T1, T2>(s: State<T1, T2>) {
    && (forall id: nat :: id in s.place <==> id < s.pushId)
    && (forall id :: id in s.place ==> (s.place[id] == Delivered <==> id < s.popId))
    && (forall k :: 0 <= k < |s.inQ| ==> At(s.place, s.inQ[k].id, InQ))
    && (forall k, l :: 0 <= k < l < |s.inQ| ==> s.inQ[k].id != s.inQ[l].id)
    && (forall w :: w in s.workers && s.workers[w].Holding? ==> At(s.place, s.workers[w].src.id, Held(w)))
    && (forall k :: 0 <= k < |s.outQ| ==> At(s.place, s.outQ[k].id, OutQ))
    && (forall k, l :: 0 <= k < l < |s.outQ| ==> s.outQ[k].id != s.outQ[l].id)
    && (forall id :: id in s.stored ==> At(s.place, id, Stored))
    && (s.waiting ==> s.popId !in s.stored)
  }

  /** Every pushed item is where its place says. */
  ghost predicate AllFound<T1, T2>(s: State<T1, T2>) {
    forall id :: id in s.place ==> Found(s, id)
  }

  ghost predicate PlacesOk<T1, T2>(s: State<T1, T2>) {
    EntriesOk(s) && AllFound(s)
  }

  ghost predicate At(place: map<nat, Place>, id: nat, p: Place) {
    id in place && place[id] == p
  }

  ghost predicate Found<T1, T2>(s: State<T1, T2>, id: nat)
    requires id in s.place
  {
    match s.place[id]
    case InQ => exists k :: 0 <= k < |s.inQ| && s.inQ[k].id == id
    case Held(w) => w in s.workers && s.workers[w].Holding? && s.workers[w].src.id == id
    case OutQ => exists k :: 0 <= k < |s.outQ| && s.outQ[k].id == id
    case Stored => id in s.stored
    case Delivered => true
    case Lost => true
  }

  /** What the closing order guarantees. */
  ghost predicate EndsOk<T1, T2>(s: State<T1, T2>) {
    && (s.inFailed ==> s.inClosed) && (s.outFailed ==> s.outClosed)
    && (forall w :: w in s.workers && s.workers[w] == Exited ==> s.outFailed || (s.inClosed && s.inQ == []))
    && (forall id :: id in s.place && s.place[id] == Lost ==> s.outFailed || exists w :: Failing(s.workers, w))
    && (s.outClosed && !s.outFailed ==> s.inClosed && forall w :: w in s.workers ==> s.workers[w] == Exited)
  }

  ghost predicate Failing<T1>(workers: map<nat, Worker<T1>>, w: nat) {
    w in workers && (workers[w] == FailIn || workers[w] == FailOut)
  }

  ghost predicate Inv<T1, T2>(s: State<T1, T2>, conv: T1 -> T2) {
    ValuesOk(s, conv) && PlacesOk(s) && EndsOk(s)
  }

  lemma {:induction false} EntriesPush<T1, T2>(s: State<T1, T2>, s': State<T1, T2>, t1: T1)
    requires EntriesOk(s) && s.popId <= s.pushId && Push(s, s', t1)
    ensures EntriesOk(s')
  {
  }

  lemma {:induction false} FoundPush<T1, T2>(s: State<T1, T2>, s': State<T1, T2>, t1: T1)
    requires PlacesOk(s) && s.popId <= s.pushId && Push(s, s', t1)
    ensures AllFound(s')
  {
    forall id | id in s'.place ensures Found(s', id) {
      if id == s.pushId {
        assert s'.inQ[|s.inQ|].id == id;
      } else {
        assert Found(s, id);
        if s.place[id] == InQ { var k :| 0 <= k < |s.inQ| && s.inQ[k].id == id; assert s'.inQ[k].id == id; }
      }
    }
  }

  lemma {:induction false} EntriesTake<T1, T2>(s: State<T1, T2>, s': State<T1, T2>, w: nat)
    requires EntriesOk(s) && Take(s, s', w)
    ensures EntriesOk(s')
  {
  }

  lemma {:induction false} FoundTake<T1, T2>(s: State<T1, T2>, s': State<T1, T2>, w: nat)
    requires PlacesOk(s) && Take(s, s', w)
    ensures AllFound(s')
  {
    var id0 := s.inQ[0].id;
    assert At(s.place, id0, InQ);
    forall id | id in s'.place ensures Found(s', id) {
      assert Found(s, id);
      if id != id0 && s.place[id] == InQ {
        var k :| 0 <= k < |s.inQ| && s.inQ[k].id == id;
        assert s'.inQ[k - 1].id == id;
      }
    }
  }

  lemma {:induction false} EntriesGive<T1, T2>(s: State<T1, T2>, s': State<T1, T2>, conv: T1 -> T2, w: nat)
    requires EntriesOk(s) && Give(s, s', conv, w)
    ensures EntriesOk(s')
  {
  }

  lemma {:induction false} FoundGive<T1, T2>(s: State<T1, T2>, s': State<T1, T2>, conv: T1 -> T2, w: nat)
    requires PlacesOk(s) && Give(s, s', conv, w)
    ensures AllFound(s')
  {
    var id0 := s.workers[w].src.id;
    assert At(s.place, id0, Held(w));
    forall id | id in s'.place ensures Found(s', id) {
      assert Found(s, id);
      if id == id0 {
        assert s'.outQ[|s.outQ|].id == id;
      } else if s.place[id] == OutQ {
        var k :| 0 <= k < |s.outQ| && s.outQ[k].id == id;
        assert s'.outQ[k].id == id;
      }
    }
  }

  lemma {:induction false} EntriesThrow<T1, T2>(s: State<T1, T2>, s': State<T1, T2>, w: nat)
    requires EntriesOk(s) && Throw(s, s', w)
    ensures EntriesOk(s')
  {
  }

  lemma {:induction false} FoundThrow<T1, T2>(s: State<T1, T2>, s': State<T1, T2>, w: nat)
    requires PlacesOk(s) && Throw(s, s', w)
    ensures AllFound(s')
  {
    forall id | id in s'.place ensures Found(s', id) {
      assert Found(s, id);
    }
  }

  lemma {:induction false} EntriesPopStored<T1, T2>(s: State<T1, T2>, s': State<T1, T2>)
    requires EntriesOk(s) && PopStored(s, s')
    ensures EntriesOk(s')
  {
  }

  lemma {:induction false} FoundPopStored<T1, T2>(s: State<T1, T2>, s': State<T1, T2>)
    requires PlacesOk(s) && PopStored(s, s')
    ensures AllFound(s')
  {
    assert At(s.place, s.popId, Stored);
    forall id | id in s'.place ensures Found(s', id) {
      assert Found(s, id);
    }
  }

  lemma {:induction false} EntriesPopOut<T1, T2>(s: State<T1, T2>, s': State<T1, T2>)
    requires EntriesOk(s) && PopOut(s, s')
    ensures EntriesOk(s')
  {
  }

  lemma {:induction false} FoundPopOut<T1, T2>(s: State<T1, T2>, s': State<T1, T2>)
    requires PlacesOk(s) && PopOut(s, s')
    ensures AllFound(s')
  {
    var id0 := s.outQ[0].id;
    assert At(s.place, id0, OutQ);
    forall id | id in s'.place ensures Found(s', id) {
      assert Found(s, id);
      if id != id0 && s.place[id] == OutQ {
        var k :| 0 <= k < |s.outQ| && s.outQ[k].id == id;
        assert s'.outQ[k - 1].id == id;
      }
    }
  }

  lemma {:induction false} EntriesPopOther<T1, T2>(s: State<T1, T2>, s': State<T1, T2>)
    requires EntriesOk(s) && PopOther(s, s')
    ensures EntriesOk(s')
  {
  }

  lemma {:induction false} FoundPopOther<T1, T2>(s: State<T1, T2>, s': State<T1, T2>)
    requires PlacesOk(s) && PopOther(s, s')
    ensures AllFound(s')
  {
    var id0 := s.outQ[0].id;
    assert At(s.place, id0, OutQ);
    forall id | id in s'.place ensures Found(s', id) {
      assert Found(s, id);
      if id != id0 && s.place[id] == OutQ {
        var k :| 0 <= k < |s.outQ| && s.outQ[k].id == id;
        assert s'.outQ[k - 1].id == id;
      }
    }
  }

  /** Steps that move no item. */
  lemma {:induction false} PlacesKept<T1, T2>(s: State<T1, T2>, s': State<T1, T2>)
    requires PlacesOk(s) && s'.place == s.place && s'.inQ == s.inQ && s'.outQ == s.outQ && s'.stored == s.stored
    requires s'.pushId == s.pushId && s'.popId == s.popId && (s'.waiting ==> s.popId !in s.stored)
    requires forall w :: (w in s.workers && s.workers[w].Holding?) || (w in s'.workers && s'.workers[w].Holding?) ==>
               w in s.workers && w in s'.workers && s.workers[w] == s'.workers[w]
    ensures PlacesOk(s')
  {
    forall id | id in s'.place ensures Found(s', id) {
      assert Found(s, id);
    }
  }

  lemma {:induction false} ValuesPush<T1, T2>(s: State<T1, T2>, s': State<T1, T2>, conv: T1 -> T2, t1: T1)
    requires ValuesOk(s, conv) && EntriesOk(s) && Push(s, s', t1)
    ensures ValuesOk(s', conv)
  {
  }

  lemma {:induction false} EndsPush<T1, T2>(s: State<T1, T2>, s': State<T1, T2>, t1: T1)
    requires EndsOk(s) && EntriesOk(s) && Push(s, s', t1)
    ensures EndsOk(s') && s'.workers.Keys == s.workers.Keys
  {
  }

  lemma {:induction false} InvPush<T1, T2>(s: State<T1, T2>, s': State<T1, T2>, conv: T1 -> T2, t1: T1)
    requires Inv(s, conv) && Push(s, s', t1)
    ensures Inv(s', conv) && s'.workers.Keys == s.workers.Keys
  {
    assert s.popId <= s.pushId;
    hide ValuesOk, EntriesOk, AllFound, EndsOk, Push;
    ValuesPush(s, s', conv, t1);
    EntriesPush(s, s', t1);
    FoundPush(s, s', t1);
    EndsPush(s, s', t1);
  }

  lemma {:induction false} ValuesTake<T1, T2>(s: State<T1, T2>, s': State<T1, T2>, conv: T1 -> T2, w: nat)
    requires ValuesOk(s, conv) && EntriesOk(s) && Take(s, s', w)
    ensures ValuesOk(s', conv)
  {
  }

  lemma {:induction false} EndsTake<T1, T2>(s: State<T1, T2>, s': State<T1, T2>, w: nat)
    requires EndsOk(s) && EntriesOk(s) && Take(s, s', w)
    ensures EndsOk(s') && s'.workers.Keys == s.workers.Keys
  {
    forall id | id in s'.place && s'.place[id] == Lost ensures s'.outFailed || exists v :: Failing(s'.workers, v) {
      if !s.outFailed && id in s.place && s.place[id] == Lost {
        var v :| Failing(s.workers, v);
        assert s'.outFailed || Failing(s'.workers, v);
      }
    }
  }

  lemma {:induction false} InvTake<T1, T2>(s: State<T1, T2>, s': State<T1, T2>, conv: T1 -> T2, w: nat)
    requires Inv(s, conv) && Take(s, s', w)
    ensures Inv(s', conv) && s'.workers.Keys == s.workers.Keys
  {
    assert s.popId <= s.pushId;
    hide ValuesOk, EntriesOk, AllFound, EndsOk, Take;
    ValuesTake(s, s', conv, w);
    EntriesTake(s, s', w);
    FoundTake(s, s', w);
    EndsTake(s, s', w);
  }

  lemma {:induction false} ValuesGive<T1, T2>(s: State<T1, T2>, s': State<T1, T2>, conv: T1 -> T2, w: nat)
    requires ValuesOk(s, conv) && EntriesOk(s) && Give(s, s', conv, w)
    ensures ValuesOk(s', conv)
  {
  }

  lemma {:induction false} EndsGive<T1, T2>(s: State<T1, T2>, s': State<T1, T2>, conv: T1 -> T2, w: nat)
    requires EndsOk(s) && EntriesOk(s) && Give(s, s', conv, w)
    ensures EndsOk(s') && s'.workers.Keys == s.workers.Keys
  {
    forall id | id in s'.place && s'.place[id] == Lost ensures s'.outFailed || exists v :: Failing(s'.workers, v) {
      if !s.outFailed && id in s.place && s.place[id] == Lost {
        var v :| Failing(s.workers, v);
        assert s'.outFailed || Failing(s'.workers, v);
      }
    }
  }

  lemma {:induction false} InvGive<T1, T2>(s: State<T1, T2>, s': State<T1, T2>, conv: T1 -> T2, w: nat)
    requires Inv(s, conv) && Give(s, s', conv, w)
    ensures Inv(s', conv) && s'.workers.Keys == s.workers.Keys
  {
    assert s.popId <= s.pushId;
    hide ValuesOk, EntriesOk, AllFound, EndsOk, Give;
    ValuesGive(s, s', conv, w);
    EntriesGive(s, s', conv, w);
    FoundGive(s, s', conv, w);
    EndsGive(s, s', conv, w);
  }

  lemma {:induction false} ValuesThrow<T1, T2>(s: State<T1, T2>, s': State<T1, T2>, conv: T1 -> T2, w: nat)
    requires ValuesOk(s, conv) && EntriesOk(s) && Throw(s, s', w)
    ensures ValuesOk(s', conv)
  {
  }

  lemma {:induction false} EndsThrow<T1, T2>(s: State<T1, T2>, s': State<T1, T2>, w: nat)
    requires EndsOk(s) && EntriesOk(s) && Throw(s, s', w)
    ensures EndsOk(s') && s'.workers.Keys == s.workers.Keys
  {
    assert Failing(s'.workers, w);
  }

  lemma {:induction false} InvThrow<T1, T2>(s: State<T1, T2>, s': State<T1, T2>, conv: T1 -> T2, w: nat)
    requires Inv(s, conv) && Throw(s, s', w)
    ensures Inv(s', conv) && s'.workers.Keys == s.workers.Keys
  {
    assert s.popId <= s.pushId;
    hide ValuesOk, EntriesOk, AllFound, EndsOk, Throw;
    ValuesThrow(s, s', conv, w);
    EntriesThrow(s, s', w);
    FoundThrow(s, s', w);
    EndsThrow(s, s', w);
  }

  lemma {:induction false} ValuesPopStored<T1, T2>(s: State<T1, T2>, s': State<T1, T2>, conv: T1 -> T2)
    requires ValuesOk(s, conv) && EntriesOk(s) && PopStored(s, s')
    ensures ValuesOk(s', conv)
  {
  }

  lemma {:induction false} EndsPopStored<T1, T2>(s: State<T1, T2>, s': State<T1, T2>)
    requires EndsOk(s) && EntriesOk(s) && PopStored(s, s')
    ensures EndsOk(s') && s'.workers.Keys == s.workers.Keys
  {
  }

  lemma {:induction false} InvPopStored<T1, T2>(s: State<T1, T2>, s': State<T1, T2>, conv: T1 -> T2)
    requires Inv(s, conv) && PopStored(s, s')
    ensures Inv(s', conv) && s'.workers.Keys == s.workers.Keys
  {
    assert s.popId <= s.pushId;
    hide ValuesOk, EntriesOk, AllFound, EndsOk, PopStored;
    ValuesPopStored(s, s', conv);
    EntriesPopStored(s, s');
    FoundPopStored(s, s');
    EndsPopStored(s, s');
  }

  lemma {:induction false} ValuesPopOut<T1, T2>(s: State<T1, T2>, s': State<T1, T2>, conv: T1 -> T2)
    requires ValuesOk(s, conv) && EntriesOk(s) && PopOut(s, s')
    ensures ValuesOk(s', conv)
  {
  }

  lemma {:induction false} EndsPopOut<T1, T2>(s: State<T1, T2>, s': State<T1, T2>)
    requires EndsOk(s) && EntriesOk(s) && PopOut(s, s')
    ensures EndsOk(s') && s'.workers.Keys == s.workers.Keys
  {
  }

  lemma {:induction false} InvPopOut<T1, T2>(s: State<T1, T2>, s': State<T1, T2>, conv: T1 -> T2)
    requires Inv(s, conv) && PopOut(s, s')
    ensures Inv(s', conv) && s'.workers.Keys == s.workers.Keys
  {
    assert s.popId <= s.pushId;
    hide ValuesOk, EntriesOk, AllFound, EndsOk, PopOut;
    ValuesPopOut(s, s', conv);
    EntriesPopOut(s, s');
    FoundPopOut(s, s');
    EndsPopOut(s, s');
  }

  lemma {:induction false} ValuesPopOther<T1, T2>(s: State<T1, T2>, s': State<T1, T2>, conv: T1 -> T2)
    requires ValuesOk(s, conv) && EntriesOk(s) && PopOther(s, s')
    ensures ValuesOk(s', conv)
  {
  }

  lemma {:induction false} EndsPopOther<T1, T2>(s: State<T1, T2>, s': State<T1, T2>)
    requires EndsOk(s) && EntriesOk(s) && PopOther(s, s')
    ensures EndsOk(s') && s'.workers.Keys == s.workers.Keys
  {
  }

  lemma {:induction false} InvPopOther<T1, T2>(s: State<T1, T2>, s': State<T1, T2>, conv: T1 -> T2)
    requires Inv(s, conv) && PopOther(s, s')
    ensures Inv(s', conv) && s'.workers.Keys == s.workers.Keys
  {
    assert s.popId <= s.pushId;
    hide ValuesOk, EntriesOk, AllFound, EndsOk, PopOther;
    ValuesPopOther(s, s', conv);
    EntriesPopOther(s, s');
    FoundPopOther(s, s');
    EndsPopOther(s, s');
  }

  lemma {:induction false} InvWorkerEnds<T1, T2>(s: State<T1, T2>, s': State<T1, T2>, conv: T1 -> T2, w: nat)
    requires Inv(s, conv) && (Cleanup(s, s', w) || Exit(s, s', w))
    ensures Inv(s', conv) && s'.workers.Keys == s.workers.Keys
  {
    assert s.waiting ==> s.popId !in s.stored;
    hide ValuesOk, EntriesOk, AllFound, EndsOk;
    EndsWorker(s, s', w);
    StillsHand(s, s', w);
    hide Cleanup, Exit;
    ValuesKept(s, s', conv);
    PlacesKept(s, s');
  }

  /** A worker that ends holds nothing. */
  lemma {:induction false} StillsHand<T1, T2>(s: State<T1, T2>, s': State<T1, T2>, w: nat)
    requires Cleanup(s, s', w) || Exit(s, s', w)
    ensures w in s.workers && !s.workers[w].Holding? && w in s'.workers && !s'.workers[w].Holding?
    ensures s'.workers == s.workers[w := s'.workers[w]]
    ensures s' == s.(inClosed := s'.inClosed, inFailed := s'.inFailed, outClosed := s'.outClosed,
        outFailed := s'.outFailed, workers := s'.workers)
  {
  }

  lemma {:induction false} EndsWorker<T1, T2>(s: State<T1, T2>, s': State<T1, T2>, w: nat)
    requires EndsOk(s) && (Cleanup(s, s', w) || Exit(s, s', w))
    ensures EndsOk(s') && s'.workers.Keys == s.workers.Keys
  {
    forall id | id in s'.place && s'.place[id] == Lost ensures s'.outFailed || exists v :: Failing(s'.workers, v) {
      if !s.outFailed && id in s.place && s.place[id] == Lost {
        var v :| Failing(s.workers, v);
        assert s'.outFailed || Failing(s'.workers, v);
      }
    }
  }

  lemma {:induction false} NotFirstMeansAbsent<T1, T2>(s: State<T1, T2>)
    requires EntriesOk(s)
    ensures s.popId in s.stored ==> IsFirst(s.stored, s.popId)
  {
    forall j | j in s.stored ensures s.popId <= j { assert At(s.place, j, Stored); }
  }

  lemma {:induction false} InvQuiet<T1, T2>(s: State<T1, T2>, s': State<T1, T2>, conv: T1 -> T2)
    requires Inv(s, conv)
    requires SyncIn(s, s') || SyncOut(s, s') || FailStep(s, s') || PopWait(s, s') || PopStops(s, s')
    ensures Inv(s', conv) && s'.workers.Keys == s.workers.Keys
  {
    assert s.waiting ==> s.popId !in s.stored;
    hide ValuesOk, EntriesOk, AllFound, EndsOk, IsFirst;
    NotFirstMeansAbsent(s);
    ValuesKept(s, s', conv);
    PlacesKept(s, s');
    EndsQuiet(s, s');
  }

  lemma {:induction false} EndsQuiet<T1, T2>(s: State<T1, T2>, s': State<T1, T2>)
    requires EndsOk(s)
    requires SyncIn(s, s') || SyncOut(s, s') || FailStep(s, s') || PopWait(s, s') || PopStops(s, s')
    ensures EndsOk(s') && s'.workers.Keys == s.workers.Keys
  {
  }

  lemma {:induction false} ValuesKept<T1, T2>(s: State<T1, T2>, s': State<T1, T2>, conv: T1 -> T2)
    requires ValuesOk(s, conv) && s'.pushed == s.pushed && s'.delivered == s.delivered
    requires s'.inQ == s.inQ && s'.outQ == s.outQ && s'.stored == s.stored && s'.pushId == s.pushId
        && s'.popId == s.popId
    requires forall w :: w in s'.workers && s'.workers[w].Holding? ==> w in s.workers && s.workers[w] == s'.workers[w]
    ensures ValuesOk(s', conv)
  {
  }

  lemma {:induction false} InvStep<T1(!new), T2>(s: State<T1, T2>, s': State<T1, T2>, conv: T1 -> T2)
    requires Inv(s, conv) && Next(s, s', conv)
    ensures Inv(s', conv) && s'.workers.Keys == s.workers.Keys
  {
    hide Inv, Push, Take, Give, Throw, Cleanup, Exit, SyncIn, SyncOut, FailStep, PopStored, PopWait, PopOut, PopOther,
        PopStops;
    if t1 :| Push(s, s', t1) {
      InvPush(s, s', conv, t1);
    } else if w :| Take(s, s', w) {
      InvTake(s, s', conv, w);
    } else if w :| Give(s, s', conv, w) {
      InvGive(s, s', conv, w);
    } else if w :| Throw(s, s', w) {
      InvThrow(s, s', conv, w);
    } else if w :| Cleanup(s, s', w) {
      InvWorkerEnds(s, s', conv, w);
    } else if w :| Exit(s, s', w) {
      InvWorkerEnds(s, s', conv, w);
    } else if PopStored(s, s') {
      InvPopStored(s, s', conv);
    } else if PopOut(s, s') {
      InvPopOut(s, s', conv);
    } else if PopOther(s, s') {
      InvPopOther(s, s', conv);
    } else {
      InvQuiet(s, s', conv);
    }
  }

  lemma {:induction false} InvInitial<T1, T2>(s: State<T1, T2>, conv: T1 -> T2)
    requires Initial(s)
    ensures Inv(s, conv)
  {
  }

  // ---- runs ----

  ghost predicate IsRun<T1(!new), T2>(run: seq<State<T1, T2>>, conv: T1 -> T2) {
    && run != [] && Initial(run[0])
    && forall k {:trigger StepAt(run, conv, k)} :: 0 <= k < |run| - 1 ==> StepAt(run, conv, k)
  }

  ghost predicate StepAt<T1(!new), T2>(run: seq<State<T1, T2>>, conv: T1 -> T2, k: nat)
    requires k < |run| - 1
  {
    Next(run[k], run[k + 1], conv)
  }

  lemma {:induction false} RunKeepsInv<T1(!new), T2>(run: seq<State<T1, T2>>, conv: T1 -> T2, k: nat)
    requires IsRun(run, conv) && k < |run|
    ensures Inv(run[k], conv) && run[k].workers.Keys == run[0].workers.Keys
  {
    hide Next, Initial, Inv;
    if k == 0 {
      InvInitial(run[0], conv);
    } else {
      RunKeepsInv(run, conv, k - 1);
      assert StepAt(run, conv, k - 1);
      InvStep(run[k - 1], run[k], conv);
    }
  }

  /** In every interleaving the consumer has got conv(t0), conv(t1), ... in push order, each once. */
  lemma {:induction false} DeliversInOrder<T1(!new), T2>(run: seq<State<T1, T2>>, conv: T1 -> T2, k: nat)
    requires IsRun(run, conv) && k < |run|
    ensures |run[k].delivered| <= |run[k].pushed|
    ensures forall j :: 0 <= j < |run[k].delivered| ==> run[k].delivered[j] == conv(run[k].pushed[j])
  {
    hide IsRun;
    RunKeepsInv(run, conv, k);
  }

  /** When `pop` returns false, every pushed item was delivered if and only if a worker was started or nothing
      was pushed. */
  lemma {:induction false} FalseMeansAllDelivered<T1(!new), T2>(run: seq<State<T1, T2>>, conv: T1 -> T2, k: nat)
    requires IsRun(run, conv) && k < |run| && PopEnds(run[k])
    ensures |run[k].delivered| == |run[k].pushed| <==> run[0].workers != map[] || run[k].pushed == []
  {
    hide IsRun, Inv;
    RunKeepsInv(run, conv, k);
    if run[0].workers != map[] {
      assert run[k].workers != map[] by { assert run[k].workers.Keys == run[0].workers.Keys; }
      AllDelivered(run[k], conv);
    } else {
      NothingPasses(run, conv, k);
    }
  }

  /** Nothing has come out of a worker. */
  ghost predicate Blocked<T1, T2>(s: State<T1, T2>) {
    s.workers == map[] && s.outQ == [] && s.stored == map[] && s.delivered == []
  }

  lemma {:induction false} BlockedStep<T1(!new), T2>(s: State<T1, T2>, s': State<T1, T2>, conv: T1 -> T2)
    requires Blocked(s) && Next(s, s', conv)
    ensures Blocked(s')
  {
    hide Give, Take, Throw, Cleanup, Exit;
    forall w: nat ensures !Take(s, s', w) && !Give(s, s', conv, w) && !Throw(s, s', w) && !Cleanup(s, s', w)
        && !Exit(s, s', w) {
      NoWorkerMoves(s, s', conv, w);
    }
  }

  lemma {:induction false} NoWorkerMoves<T1, T2>(s: State<T1, T2>, s': State<T1, T2>, conv: T1 -> T2, w: nat)
    requires s.workers == map[]
    ensures !Take(s, s', w) && !Give(s, s', conv, w) && !Throw(s, s', w) && !Cleanup(s, s', w) && !Exit(s, s', w)
  {
  }

  /** Without a worker nothing is ever delivered. */
  lemma {:induction false} NothingPasses<T1(!new), T2>(run: seq<State<T1, T2>>, conv: T1 -> T2, k: nat)
    requires IsRun(run, conv) && k < |run| && run[0].workers == map[]
    ensures Blocked(run[k])
  {
    hide Next;
    if k > 0 {
      NothingPasses(run, conv, k - 1);
      assert StepAt(run, conv, k - 1);
      BlockedStep(run[k - 1], run[k], conv);
    }
  }

  /** When `pop` ends, an item is delivered or in the map. */
  lemma {:induction false} WhereNow<T1, T2>(s: State<T1, T2>, conv: T1 -> T2, id: nat)
    requires Inv(s, conv) && s.workers != map[] && PopEnds(s) && id in s.place
    ensures s.place[id] == Delivered || id in s.stored
  {
    var w :| w in s.workers;
    assert s.workers[w] == Exited && s.inQ == [];
    assert Found(s, id);
    assert forall v :: !Failing(s.workers, v);
  }

  lemma {:induction false} AllDelivered<T1, T2>(s: State<T1, T2>, conv: T1 -> T2)
    requires Inv(s, conv) && s.workers != map[] && PopEnds(s)
    ensures |s.delivered| == |s.pushed|
  {
    if s.popId < s.pushId {
      WhereNow(s, conv, s.popId);
    }
  }

  // ---- a pop that has to return can ----

  /** What workers, `sync` and the waiting consumer do by themselves. */
  ghost predicate Inner<T1, T2>(s: State<T1, T2>, s': State<T1, T2>, conv: T1 -> T2) {
    || (exists w :: Take(s, s', w)) || (exists w :: Give(s, s', conv, w)) || (exists w :: Cleanup(s, s', w))
    || (exists w :: Exit(s, s', w)) || (SyncOut(s, s') && !s.outClosed) || PopOut(s, s') || PopOther(s, s')
  }

  /** The consumer waits, nothing has failed, and it is entitled to an answer: `sync` was called, or an item it has
      not got was pushed and a worker was started. */
  ghost predicate Owed<T1, T2>(s: State<T1, T2>) {
    && s.waiting && !s.inFailed && !s.outFailed
    && (s.inClosed || (s.workers != map[] && s.popId < s.pushId))
  }

  ghost predicate CanGoOn<T1(!new), T2(!new)>(s: State<T1, T2>, conv: T1 -> T2) {
    exists s' :: Inner(s, s', conv)
  }

  lemma {:induction false} WorkerGoesOn<T1(!new), T2(!new)>(s: State<T1, T2>, conv: T1 -> T2, w: nat)
    requires Inv(s, conv) && !s.inFailed && !s.outFailed && w in s.workers && s.workers[w] != Exited
    requires s.workers[w] == Idle ==> s.inQ != [] || s.inClosed
    ensures CanGoOn(s, conv)
  {
    hide ValuesOk, PlacesOk;
    match s.workers[w]
    case Idle =>
      if s.inQ != [] {
        var s' := s.(inQ := s.inQ[1..], workers := s.workers[w := Holding(s.inQ[0])],
            place := s.place[s.inQ[0].id := Held(w)]);
        assert Take(s, s', w) && Inner(s, s', conv);
      } else {
        var s' := s.(workers := s.workers[w := Exited]);
        assert Exit(s, s', w) && Inner(s, s', conv);
      }
    case Holding(src) =>
      var s' := s.(outQ := s.outQ + [Dst(src.id, conv(src.t1))], workers := s.workers[w := Idle],
          place := s.place[src.id := OutQ]);
      assert Give(s, s', conv, w) && Inner(s, s', conv);
    case FailIn =>
      var s' := s.(inClosed := true, inFailed := true, workers := s.workers[w := FailOut]);
      assert Cleanup(s, s', w) && Inner(s, s', conv);
    case FailOut =>
      var s' := s.(outClosed := true, outFailed := true, workers := s.workers[w := Exited]);
      assert Cleanup(s, s', w) && Inner(s, s', conv);
  }

  lemma {:induction false} ConsumerGoesOn<T1(!new), T2(!new)>(s: State<T1, T2>, conv: T1 -> T2)
    requires s.waiting && !s.outFailed && s.outQ != []
    ensures CanGoOn(s, conv)
  {
    var dst := s.outQ[0];
    if dst.id == s.popId {
      var s' := s.(outQ := s.outQ[1..], popId := s.popId + 1, delivered := s.delivered + [dst.t2], waiting := false,
          place := s.place[s.popId := Delivered]);
      assert PopOut(s, s') && Inner(s, s', conv);
    } else {
      var s' := s.(outQ := s.outQ[1..], place := s.place[dst.id := Stored],
          stored := if dst.id in s.stored then s.stored else s.stored[dst.id := dst.t2]);
      assert PopOther(s, s') && Inner(s, s', conv);
    }
  }

  /** An item the consumer waits for is on its way: before `sync` its worker, or one that can take it, can go on. */
  lemma {:induction false} ItemOnItsWay<T1, T2>(s: State<T1, T2>, conv: T1 -> T2) returns (w: nat)
    requires Inv(s, conv) && Owed(s) && !s.inClosed && s.outQ == []
    ensures w in s.workers && s.workers[w] != Exited && (s.workers[w] == Idle ==> s.inQ != [])
  {
    assert Found(s, s.popId);
    if s.place[s.popId] == Lost {
      w :| Failing(s.workers, w);
    } else if s.place[s.popId].Held? {
      w := s.place[s.popId].w;
    } else {
      w :| w in s.workers;
    }
  }

  /** A consumer that is owed an answer is never stuck: its `pop` is about to return false, or somebody can go on. */
  lemma {:induction false} NeverStuck<T1(!new), T2(!new)>(s: State<T1, T2>, conv: T1 -> T2)
    requires Inv(s, conv) && Owed(s)
    ensures PopEnds(s) || CanGoOn(s, conv)
  {
    hide Inv, CanGoOn;
    if s.outQ != [] {
      ConsumerGoesOn(s, conv);
    } else if !s.inClosed {
      var w := ItemOnItsWay(s, conv);
      WorkerGoesOn(s, conv, w);
    } else if w :| w in s.workers && s.workers[w] != Exited {
      WorkerGoesOn(s, conv, w);
    } else if !s.outClosed {
      CloserGoesOn(s, conv);
    }
  }

  lemma {:induction false} CloserGoesOn<T1(!new), T2(!new)>(s: State<T1, T2>, conv: T1 -> T2)
    requires s.inClosed && !s.outFailed && !s.outClosed && forall w :: w in s.workers ==> s.workers[w] == Exited
    ensures CanGoOn(s, conv)
  {
    var s' := s.(outClosed := true);
    assert SyncOut(s, s') && Inner(s, s', conv);
  }

  /** Workers that have an item, or an exception, in hand; and those that have not ended. */
  predicate IsBusy<T1>(worker: Worker<T1>) {
    worker.Holding? || worker.FailIn?
  }

  ghost function Busy<T1>(workers: map<nat, Worker<T1>>): set<nat> {
    set w | w in workers && IsBusy(workers[w])
  }

  ghost function Running<T1>(workers: map<nat, Worker<T1>>): set<nat> {
    set w | w in workers && !workers[w].Exited?
  }

  /** The work left to workers, `sync` and consumer. */
  ghost function WorkersLeft<T1>(workers: map<nat, Worker<T1>>): nat {
    2 * |Busy(workers)| + |Running(workers)|
  }

  ghost function Left<T1, T2>(s: State<T1, T2>): nat {
    3 * |s.inQ| + WorkersLeft(s.workers) + |s.outQ| + if s.outClosed then 0 else 1
  }

  /** What one worker has left. */
  function WorkOf<T1>(worker: Worker<T1>): nat {
    (if IsBusy(worker) then 2 else 0) + (if worker.Exited? then 0 else 1)
  }

  lemma {:induction false} WorkerChanges<T1>(workers: map<nat, Worker<T1>>, w: nat, to: Worker<T1>)
    requires w in workers
    ensures WorkersLeft(workers[w := to]) == WorkersLeft(workers) - WorkOf(workers[w]) + WorkOf(to)
  {
    hide Busy, Running;
    BusyBut(workers, w);
    BusyBut(workers[w := to], w);
    RunningBut(workers, w);
    RunningBut(workers[w := to], w);
    assert workers[w := to] - {w} == workers - {w};
  }

  lemma {:induction false} BusyBut<T1>(workers: map<nat, Worker<T1>>, w: nat)
    requires w in workers
    ensures |Busy(workers)| == |Busy(workers - {w})| + if IsBusy(workers[w]) then 1 else 0
  {
    hide IsBusy;
    if IsBusy(workers[w]) {
      assert Busy(workers) == Busy(workers - {w}) + {w};
    } else {
      assert Busy(workers) == Busy(workers - {w});
    }
  }

  lemma {:induction false} RunningBut<T1>(workers: map<nat, Worker<T1>>, w: nat)
    requires w in workers
    ensures |Running(workers)| == |Running(workers - {w})| + if workers[w].Exited? then 0 else 1
  {
    if workers[w].Exited? {
      assert Running(workers) == Running(workers - {w});
    } else {
      assert Running(workers) == Running(workers - {w}) + {w};
    }
  }

  /** Every such step leaves less to do. */
  lemma {:induction false} LessLeft<T1, T2>(s: State<T1, T2>, s': State<T1, T2>, conv: T1 -> T2)
    requires Inner(s, s', conv)
    ensures Left(s') < Left(s)
  {
    hide Take, Give, Cleanup, Exit, SyncOut, PopOut, PopOther, Left;
    if w :| Take(s, s', w) {
      LeftTake(s, s', w);
    } else if w :| Give(s, s', conv, w) {
      LeftGive(s, s', conv, w);
    } else if w :| Cleanup(s, s', w) || Exit(s, s', w) {
      LeftEnds(s, s', w);
    } else {
      LeftOut(s, s');
    }
  }

  lemma {:induction false} LeftTake<T1, T2>(s: State<T1, T2>, s': State<T1, T2>, w: nat)
    requires Take(s, s', w)
    ensures Left(s') < Left(s)
  {
    hide WorkersLeft;
    WorkerChanges(s.workers, w, Holding(s.inQ[0]));
  }

  lemma {:induction false} LeftGive<T1, T2>(s: State<T1, T2>, s': State<T1, T2>, conv: T1 -> T2, w: nat)
    requires Give(s, s', conv, w)
    ensures Left(s') < Left(s)
  {
    hide WorkersLeft;
    WorkerChanges(s.workers, w, Idle);
  }

  lemma {:induction false} LeftEnds<T1, T2>(s: State<T1, T2>, s': State<T1, T2>, w: nat)
    requires Cleanup(s, s', w) || Exit(s, s', w)
    ensures Left(s') < Left(s)
  {
    hide WorkersLeft;
    WorkerChanges(s.workers, w, s'.workers[w]);
  }

  lemma {:induction false} LeftOut<T1, T2>(s: State<T1, T2>, s': State<T1, T2>)
    requires (SyncOut(s, s') && !s.outClosed) || PopOut(s, s') || PopOther(s, s')
    ensures Left(s') < Left(s)
  {
    hide WorkersLeft;
  }

  lemma {:induction false} InnerIsNext<T1(!new), T2>(s: State<T1, T2>, s': State<T1, T2>, conv: T1 -> T2)
    requires Inner(s, s', conv)
    ensures Next(s, s', conv)
  {
  }

  /** After such a step the consumer has its item, or a failure was noticed, or it is still owed an answer. */
  lemma {:induction false} StillOwed<T1, T2>(s: State<T1, T2>, s': State<T1, T2>, conv: T1 -> T2)
    requires Owed(s) && Inner(s, s', conv)
    ensures !s'.waiting || s'.inFailed || s'.outFailed || Owed(s')
    ensures !s'.waiting ==> |s'.delivered| == |s.delivered| + 1
  {
    hide PopOut, PopOther;
    if PopOut(s, s') || PopOther(s, s') {
      OutOwed(s, s');
    }
  }

  lemma {:induction false} OutOwed<T1, T2>(s: State<T1, T2>, s': State<T1, T2>)
    requires Owed(s) && (PopOut(s, s') || PopOther(s, s'))
    ensures if PopOut(s, s') then !s'.waiting && |s'.delivered| == |s.delivered| + 1 else Owed(s')
  {
  }

  ghost predicate IsPath<T1, T2>(path: seq<State<T1, T2>>, conv: T1 -> T2) {
    path != [] && forall k {:trigger InnerAt(path, conv, k)} :: 0 <= k < |path| - 1 ==> InnerAt(path, conv, k)
  }

  ghost predicate InnerAt<T1, T2>(path: seq<State<T1, T2>>, conv: T1 -> T2, k: nat)
    requires k < |path| - 1
  {
    Inner(path[k], path[k + 1], conv)
  }

  /** No sequence of such steps goes on for ever. */
  lemma {:induction false} PathsEnd<T1, T2>(path: seq<State<T1, T2>>, conv: T1 -> T2)
    requires IsPath(path, conv)
    ensures |path| <= Left(path[0]) + 1
    decreases |path|
  {
    hide Inner, Left;
    if |path| > 1 {
      assert InnerAt(path, conv, 0);
      LessLeft(path[0], path[1], conv);
      var rest := path[1..];
      forall k | 0 <= k < |rest| - 1 ensures InnerAt(rest, conv, k) { assert InnerAt(path, conv, k + 1); }
      PathsEnd(rest, conv);
    }
  }

  /** From every state in which the consumer is owed an answer such steps lead to one in which it has its item, is about
      to return false, or a failure was noticed. */
  lemma {:induction false} PopReturns<T1(!new), T2(!new)>(s: State<T1, T2>, conv: T1 -> T2)
    returns (path: seq<State<T1, T2>>)
    requires Inv(s, conv) && Owed(s)
    ensures IsPath(path, conv) && path[0] == s && |path| <= Left(s) + 1
    ensures var e := path[|path| - 1]; !e.waiting || PopEnds(e) || e.inFailed || e.outFailed
    decreases Left(s)
  {
    hide Inv, Inner, Left, Owed, PopEnds;
    if PopEnds(s) {
      return [s];
    }
    NeverStuck(s, conv);
    var s' :| Inner(s, s', conv);
    LessLeft(s, s', conv);
    StillOwed(s, s', conv);
    if Owed(s') {
      InnerIsNext(s, s', conv);
      InvStep(s, s', conv);
      var rest := PopReturns(s', conv);
      path := [s] + rest;
      forall k | 0 <= k < |path| - 1 ensures InnerAt(path, conv, k) {
        if k > 0 { assert InnerAt(rest, conv, k - 1); }
      }
    } else {
      path := [s, s'];
    }
  }

  /** In every state of every run: a `pop` after `sync`, or for an item that was pushed to a started converter, is
      answered by finitely many steps that workers, `sync` and consumer can take. */
  lemma {:induction false} RunPopReturns<T1(!new), T2(!new)>(run: seq<State<T1, T2>>, conv: T1 -> T2, k: nat)
    returns (path: seq<State<T1, T2>>)
    requires IsRun(run, conv) && k < |run| && Owed(run[k])
    ensures IsPath(path, conv) && path[0] == run[k]
    ensures var e := path[|path| - 1]; !e.waiting || PopEnds(e) || e.inFailed || e.outFailed
  {
    hide IsRun, Inv, Owed;
    RunKeepsInv(run, conv, k);
    path := PopReturns(run[k], conv);
  }

  /** Without a worker, `sync` closes the output at once and `pop` returns false with an item undelivered. */
  lemma {:induction false} NoWorkerLosesItems<T2>(conv: int -> T2)
    ensures var s0: State<int, T2> := State([], false, false, [], false, false, map[], map[], 0, 0, false, [], [],
        map[]);
            var s1 := s0.(inQ := [Src(0, 7)], pushId := 1, pushed := [7], place := map[0 := InQ]);
            var s2 := s1.(inClosed := true);
            var s3 := s2.(outClosed := true);
            var s4 := s3.(waiting := true);
            IsRun([s0, s1, s2, s3, s4], conv) && PopEnds(s4) && |s4.delivered| < |s4.pushed|
  {
    var s0: State<int, T2> := State([], false, false, [], false, false, map[], map[], 0, 0, false, [], [], map[]);
    var s1 := s0.(inQ := [Src(0, 7)], pushId := 1, pushed := [7], place := map[0 := InQ]);
    var s2 := s1.(inClosed := true);
    var s3 := s2.(outClosed := true);
    var s4 := s3.(waiting := true);
    var run := [s0, s1, s2, s3, s4];
    assert Push(s0, s1, 7) && SyncIn(s1, s2) && SyncOut(s2, s3) && PopWait(s3, s4);
    forall k | 0 <= k < |run| - 1 ensures StepAt(run, conv, k) {
      assert k == 0 || k == 1 || k == 2 || k == 3;
    }
  }
}
