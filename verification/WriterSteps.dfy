/** What each step of the asynchronous writer keeps. */
module WriterSteps {
  import opened BlockWrites
  import opened RangeUtil
  import opened WriterState

  // ---- a fetched IO enters the serializer ----

  /** The IOs after `OverlappedSerializer::add` of IO f. */
  ghost predicate Marked(ios: seq<Io>, ios': seq<Io>, log: seq<Write>, front: nat, f: nat)
    requires f < |ios| == |log|
  {
    && |ios'| == |ios|
    && (forall i :: 0 <= i < |ios| ==>
          && ios'[i].w == ios[i].w && ios'[i].aioKey == ios[i].aioKey
          && ios'[i].nOverlapped == (if i == f then |Earlier(log, front, f)| else ios[i].nOverlapped)
          && ios'[i].state == (if front <= i < f && CoveredBy(log[i], log[f]) && ios[i].state == Init
                               then Overwritten else ios[i].state))
  }

  lemma {:induction false} FetchCount(ios: seq<Io>, ios': seq<Io>, log: seq<Write>, front: nat, f: nat)
    requires front <= f && ShapeInv(ios, log, front, f) && f < |ios|
    requires CountInv(ios, log, front, f) && Marked(ios, ios', log, front, f)
    ensures ShapeInv(ios', log, front, f + 1) && CountInv(ios', log, front, f + 1)
  {
  }

  lemma {:induction false} FetchReady(ios: seq<Io>, ios': seq<Io>, log: seq<Write>, front: nat, f: nat, ready: seq<nat>)
    requires ShapeInv(ios, log, front, f) && f < |ios|
    requires ReadyInv(ios, front, f, ready) && Marked(ios, ios', log, front, f)
    ensures ReadyInv(ios', front, f + 1, if ios'[f].nOverlapped == 0 then Insert(ios', ready, f) else ready)
  {
    if ios'[f].nOverlapped == 0 {
      InsertMembers(ios', ready, f);
    }
  }

  lemma {:induction false} FetchSkip(ios: seq<Io>, ios': seq<Io>, log: seq<Write>, front: nat, f: nat)
    requires ShapeInv(ios, log, front, f) && f < |ios|
    requires SkipInv(ios, log, f) && Marked(ios, ios', log, front, f)
    ensures SkipInv(ios', log, f + 1)
  {
    forall i | 0 <= i < f + 1 && ios'[i].state == Overwritten ensures Rewritten(log, f + 1, i) {
      if ios[i].state == Overwritten {
        assert Rewritten(log, f, i);
      } else {
        assert i < f < f + 1 && CoveredBy(log[i], log[f]);
      }
    }
  }

  lemma {:induction false} FetchKeyLand(ios: seq<Io>, ios': seq<Io>, log: seq<Write>, front: nat, f: nat, sk: set<nat>,
                                        aio: Aio, done: set<nat>,
                     owner: map<nat, nat>, landed: set<nat>)
    requires ShapeInv(ios, log, front, f) && f < |ios| && Marked(ios, ios', log, front, f)
    requires KeyInv(ios, log, front, f, sk, aio, done, owner) && LandInv(ios, front, f, sk, aio, landed)
    ensures KeyInv(ios', log, front, f + 1, sk, aio, done, owner) && LandInv(ios', front, f + 1, sk, aio, landed)
  {
  }

  lemma {:induction false} FetchDev(log: seq<Write>, f: nat, landed: set<nat>, pending: map<nat, AioData>,
                                    dev0: Device, dev: Device)
    requires f < |log| && f !in landed && DevInv(log, f, landed, pending, dev0, dev)
    ensures DevInv(log, f + 1, landed, pending, dev0, dev)
  {
  }

  lemma {:induction false} FetchSet(ios: seq<Io>, log: seq<Write>, front: nat, f: nat, s: seq<nat>, maxSize: nat)
    requires ShapeInv(ios, log, front, f) && f < |ios| && SetInv(log, front, f, s, maxSize)
    ensures SetInv(log, front, f + 1, Insert(ios, s, f),
                   if maxSize < |ios[f].w.data| then |ios[f].w.data| else maxSize)
  {
    InsertMembers(ios, s, f);
    InsertKeepsOrder(ios, log, front, f, s, maxSize);
    hide Insert;
  }

  /** The newest IO goes behind all with its offset or a smaller one. */
  lemma {:induction false} InsertKeepsOrder(ios: seq<Io>, log: seq<Write>, front: nat, f: nat, s: seq<nat>,
                                            maxSize: nat)
    requires ShapeInv(ios, log, front, f) && f < |ios| && SetInv(log, front, f, s, maxSize)
    ensures var t := Insert(ios, s, f); forall q, r :: 0 <= q < r < |t| ==> Before(log, t[q], t[r])
  {
    var p := UpperBound(ios, s, ios[f].w.offset);
    var t := Insert(ios, s, f);
    forall q, r | 0 <= q < r < |t| ensures Before(log, t[q], t[r]) {
      if p < |s| && p < r { SetOrder(log, front, f, s, maxSize, p, r - 1); }
    }
  }

  // ---- the oldest processing IO leaves the serializer ----

  /** The IOs after `delIoAndPushReadyIos` of IO x. */
  ghost predicate Released(ios: seq<Io>, ios': seq<Io>, log: seq<Write>, x: nat, hi: nat)
    requires x < hi <= |ios| == |log|
  {
    && |ios'| == |ios|
    && (forall i :: 0 <= i < |ios| ==>
          && ios'[i].w == ios[i].w && ios'[i].aioKey == ios[i].aioKey && ios'[i].state == ios[i].state
          && (if x < i < hi && Overlaps(log[x], log[i]) then ios'[i].nOverlapped + 1 == ios[i].nOverlapped
              else ios'[i].nOverlapped == ios[i].nOverlapped))
  }

  lemma {:induction false} EarlierDrop(log: seq<Write>, x: nat, j: nat)
    requires x < j < |log|
    ensures |Earlier(log, x, j)| == |Earlier(log, x + 1, j)| + (if Overlaps(log[x], log[j]) then 1 else 0)
  {
    var s, t := Earlier(log, x, j), Earlier(log, x + 1, j);
    if Overlaps(log[x], log[j]) {
      assert s == t + {x};
    } else {
      assert s == t;
    }
  }

  lemma {:induction false} DelCount(ios: seq<Io>, ios': seq<Io>, log: seq<Write>, x: nat, hi: nat)
    requires x < hi && ShapeInv(ios, log, x, hi) && CountInv(ios, log, x, hi)
    requires ios[x].state != Init && Released(ios, ios', log, x, hi)
    ensures ShapeInv(ios', log, x + 1, hi) && CountInv(ios', log, x + 1, hi)
  {
    forall j | x + 1 <= j < hi
      ensures ios'[j].nOverlapped == |Earlier(log, x + 1, j)|
      ensures ios'[j].state == Submitted ==> ios'[j].nOverlapped == 0
    {
      EarlierDrop(log, x, j);
    }
  }

  lemma {:induction false} DelReady(ios: seq<Io>, ios': seq<Io>, log: seq<Write>, x: nat, hi: nat, ready: seq<nat>,
                                    ready': seq<nat>)
    requires x < hi && ShapeInv(ios, log, x, hi) && ReadyInv(ios, x, hi, ready) && x !in ready
    requires Released(ios, ios', log, x, hi) && NoDup(ready')
    requires forall i :: i in ready' <==> i in ready || (x < i < hi && Overlaps(log[i], log[x])
                                                        && ios'[i].nOverlapped == 0 && ios'[i].state == Init)
    ensures ReadyInv(ios', x + 1, hi, ready')
  {
    forall p | 0 <= p < |ready'| ensures x + 1 <= ready'[p] < hi {
      assert ready'[p] in ready';
      if ready'[p] in ready { assert ready'[p] != x; }
    }
  }

  lemma {:induction false} DelSkip(ios: seq<Io>, ios': seq<Io>, log: seq<Write>, x: nat, hi: nat)
    requires x < hi && ShapeInv(ios, log, x, hi) && Released(ios, ios', log, x, hi) && SkipInv(ios, log, hi)
    ensures SkipInv(ios', log, hi)
  {
    SkipFrame(ios, ios', log, hi);
  }

  lemma {:induction false} DelKeyLand(ios: seq<Io>, ios': seq<Io>, log: seq<Write>, x: nat, hi: nat, sk: set<nat>,
                                      aio: Aio,
                   done: set<nat>, owner: map<nat, nat>, landed: set<nat>)
    requires x < hi && ShapeInv(ios, log, x, hi) && Released(ios, ios', log, x, hi)
    requires KeyInv(ios, log, x + 1, hi, sk, aio, done, owner) && LandInv(ios, x + 1, hi, sk, aio, landed)
    ensures KeyInv(ios', log, x + 1, hi, sk, aio, done, owner) && LandInv(ios', x + 1, hi, sk, aio, landed)
  {
  }

  lemma {:induction false} DelSet(log: seq<Write>, x: nat, hi: nat, s: seq<nat>, maxSize: nat, p: nat)
    requires x < hi && SetInv(log, x, hi, s, maxSize) && p < |s| && s[p] == x
    ensures SetInv(log, x + 1, hi, Without(s, p), if Without(s, p) == [] then 0 else maxSize)
  {
    var t := Without(s, p);
    assert forall q :: 0 <= q < |t| ==> t[q] == s[if q < p then q else q + 1];
    forall q | 0 <= q < |t| ensures x + 1 <= t[q] < hi {
      var r := if q < p then q else q + 1;
      assert Before(log, s[if r < p then r else p], s[if r < p then p else r]);
    }
    forall i | x + 1 <= i < hi ensures i in t {
      assert i in s;
      assert i in s[..p] || i in s[p + 1..];
    }
    forall i | x + 1 <= i < hi ensures |log[i].data| <= if t == [] then 0 else maxSize {
      assert i in t;
    }
  }

  /** Deletion is FIFO and equal offsets keep insertion order, so the oldest IO is the first of its
      equal range: the loop of `OverlappedSerializer::erase`, which never advances, returns at once. */
  lemma {:induction false} OldestIsFirstOfEqualRange(log: seq<Write>, x: nat, hi: nat, s: seq<nat>, maxSize: nat,
                                                     p: nat)
    requires x < hi && SetInv(log, x, hi, s, maxSize)
    requires p <= |s| && (forall q :: 0 <= q < p ==> log[s[q]].offset < log[x].offset)
    requires p < |s| ==> log[x].offset <= log[s[p]].offset
    ensures p < |s| && s[p] == x
  {
    assert x in s;
    var q :| 0 <= q < |s| && s[q] == x;
    if p < |s| { SetOrder(log, x, hi, s, maxSize, p, q); }
  }

  lemma {:induction false} SetOrder(log: seq<Write>, front: nat, hi: nat, s: seq<nat>, maxSize: nat, p: nat, q: nat)
    requires SetInv(log, front, hi, s, maxSize) && p < |s| && q < |s|
    ensures p < q ==> Before(log, s[p], s[q])
  {
  }

  // ---- submitting ----

  lemma {:induction false} SubmitReady(ios: seq<Io>, front: nat, hi: nat, ready: seq<nat>, key: nat)
    requires hi <= |ios| && ReadyInv(ios, front, hi, ready) && ready != []
    ensures ready[0] < |ios|
    ensures ios[ready[0]].state == Overwritten ==> ReadyInv(ios, front, hi, ready[1..])
    ensures ReadyInv(ios[ready[0] := ios[ready[0]].(state := Submitted, aioKey := key)], front, hi, ready[1..])
  {
    var x := ready[0];
    assert ready == [x] + ready[1..];
    forall i | i in ready[1..] ensures i in ready && i != x {
      var p :| 0 <= p < |ready[1..]| && ready[1..][p] == i;
      assert Apart(ready, 0, p + 1);
    }
    forall p, q | 0 <= p < q < |ready[1..]| ensures Apart(ready[1..], p, q) {
      assert Apart(ready, p + 1, q + 1);
    }
  }

  lemma {:induction false} SubmitRest(ios: seq<Io>, log: seq<Write>, front: nat, hi: nat, x: nat, sk: set<nat>,
                                      aio: Aio, landed: set<nat>)
    requires ShapeInv(ios, log, front, hi) && front <= x < hi
    requires ios[x].state == Init && ios[x].nOverlapped == 0
    requires CountInv(ios, log, front, hi) && SkipInv(ios, log, hi) && LandInv(ios, front, hi, sk, aio, landed)
    requires forall i :: front <= i < hi && ios[i].state == Submitted ==> ios[i].aioKey < aio.key
    ensures var ios' := ios[x := ios[x].(state := Submitted, aioKey := aio.key)];
            && ShapeInv(ios', log, front, hi) && CountInv(ios', log, front, hi) && SkipInv(ios', log, hi)
            && LandInv(ios', front, hi, sk + {aio.key}, AddRequest(aio, log[x]), landed)
  {
    var ios' := ios[x := ios[x].(state := Submitted, aioKey := aio.key)];
    SkipFrame(ios, ios', log, hi);
  }

  /** `Aio::prepareWrite` */
  function AddRequest(aio: Aio, w: Write): Aio {
    aio.(submitQ := aio.submitQ + [AioData(aio.key, w)], key := aio.key + 1)
  }

  lemma {:induction false} SubmitKey(ios: seq<Io>, log: seq<Write>, front: nat, hi: nat, x: nat, sk: set<nat>, aio: Aio,
                  done: set<nat>, owner: map<nat, nat>)
    requires |ios| == |log| && hi <= |ios| && front <= x < hi && ios[x].state == Init
    requires KeyInv(ios, log, front, hi, sk, aio, done, owner)
    ensures KeyInv(ios[x := ios[x].(state := Submitted, aioKey := aio.key)], log, front, hi,
                   sk + {aio.key}, AddRequest(aio, log[x]), done, owner[aio.key := x])
  {
    forall k: nat
      ensures k in owner[aio.key := x] <==> OnePlace(k, sk + {aio.key}, AddRequest(aio, log[x]), done)
    {
      assert OnePlace(k, sk, aio, done) <==> k in owner;
    }
  }

  lemma {:induction false} SubmitQueue(log: seq<Write>, x: nat, sk: set<nat>, aio: Aio, owner: map<nat, nat>)
    requires x < |log| && aio.key !in owner && SubmitQInv(log, aio.submitQ, sk, owner) && sk <= owner.Keys
    ensures SubmitQInv(log, AddRequest(aio, log[x]).submitQ, sk + {aio.key}, owner[aio.key := x])
  {
    KeysOfAppend(aio.submitQ, AioData(aio.key, log[x]));
  }

  lemma {:induction false} SkipFrame(ios: seq<Io>, ios': seq<Io>, log: seq<Write>, hi: nat)
    requires |ios| == |ios'| == |log| && hi <= |ios| && SkipInv(ios, log, hi)
    requires forall i :: 0 <= i < hi && ios'[i].state == Overwritten ==> ios[i].state == Overwritten
    ensures SkipInv(ios', log, hi)
  {
    forall i | 0 <= i < hi && ios'[i].state == Overwritten ensures Rewritten(log, hi, i) { }
  }

  lemma {:induction false} KeysOfAppend(q: seq<AioData>, d: AioData)
    ensures KeysOf(q + [d]) == KeysOf(q) + {d.key}
  {
    if q == [] {
      assert q + [d] == [d];
      assert [d][1..] == [];
    } else {
      KeysOfAppend(q[1..], d);
      assert (q + [d])[1..] == q[1..] + [d];
    }
  }

  /** `Aio::submit` moves the head of the submit queue to the pending map. */
  function MoveHead(aio: Aio): Aio
    requires aio.submitQ != []
  {
    aio.(submitQ := aio.submitQ[1..], pending := aio.pending[aio.submitQ[0].key := aio.submitQ[0]])
  }

  lemma {:induction false} MoveQueue(log: seq<Write>, sk: set<nat>, aio: Aio, owner: map<nat, nat>)
    requires aio.submitQ != [] && SubmitQInv(log, aio.submitQ, sk, owner)
    ensures var h := aio.submitQ[0];
            h.key in sk && h.key in owner && owner[h.key] < |log| && h.w == log[owner[h.key]]
            && SubmitQInv(log, aio.submitQ[1..], sk - {h.key}, owner)
  {
    var h, t := aio.submitQ[0], aio.submitQ[1..];
    assert h in aio.submitQ;
    assert h.key in KeysOf(t) ==> sk == KeysOf(t);
    assert KeysOf(t) == sk - {h.key};
    assert forall d :: d in t ==> d in aio.submitQ;
  }

  lemma {:induction false} MoveToPending(ios: seq<Io>, log: seq<Write>, lo: nat, hi: nat, sk: set<nat>, aio: Aio,
                                         done: set<nat>,
                      owner: map<nat, nat>, landed: set<nat>)
    requires |ios| == |log| && hi <= |ios| && aio.submitQ != []
    requires var h := aio.submitQ[0]; h.key in sk && h.key in owner && owner[h.key] < |log| && h.w == log[owner[h.key]]
    requires KeyInv(ios, log, lo, hi, sk, aio, done, owner) && LandInv(ios, lo, hi, sk, aio, landed)
    ensures aio.submitQ[0].key !in aio.pending
    ensures KeyInv(ios, log, lo, hi, sk - {aio.submitQ[0].key}, MoveHead(aio), done, owner)
    ensures LandInv(ios, lo, hi, sk - {aio.submitQ[0].key}, MoveHead(aio), landed)
  {
    forall k: nat ensures k in owner <==> OnePlace(k, sk - {aio.submitQ[0].key}, MoveHead(aio), done) {
      assert OnePlace(k, sk, aio, done) <==> k in owner;
    }
  }

  /** More in flight, less to say about the device. */
  lemma {:induction false} DevWeaken(log: seq<Write>, hi: nat, landed: set<nat>, pending: map<nat, AioData>,
                  pending': map<nat, AioData>, dev0: Device, dev: Device)
    requires hi <= |log| && DevInv(log, hi, landed, pending, dev0, dev)
    requires forall k :: k in pending ==> k in pending' && pending'[k] == pending[k]
    ensures DevInv(log, hi, landed, pending', dev0, dev)
  {
    forall a: nat | !InFlight(pending', a) ensures !InFlight(pending, a) {
      assert forall k :: k in pending ==> k in pending' && !Covers(pending'[k].w, a);
    }
  }

  // ---- the kernel ----

  /** What the kernel may do to the device while `pending` is in flight and it completes `c`: a byte under
      no pending write is kept, a byte under exactly one gets its data once that write completes,
      any other byte is arbitrary. */
  ghost predicate KernelStep(pending: map<nat, AioData>, c: set<nat>, dev: Device, dev': Device) {
    && c <= pending.Keys
    && (forall a: nat :: !InFlight(pending, a) ==> dev'(a) == dev(a))
    && (forall a: nat, k :: k in c && Covers(pending[k].w, a) && OnlyOne(pending, k, a)
                            ==> dev'(a) == pending[k].w.data[a - pending[k].w.offset])
  }

  ghost predicate OnlyOne(pending: map<nat, AioData>, k: nat, a: nat) {
    forall k' :: k' in pending && k' != k ==> !Covers(pending[k'].w, a)
  }

  ghost function OwnersOf(owner: map<nat, nat>, c: set<nat>): set<nat>
    requires c <= owner.Keys
  {
    set k | k in c :: owner[k]
  }

  /** No IO is in flight together with an overlapping one, and none is submitted before every earlier
      overlapping IO is gone. */
  lemma {:induction false} SubmittedHasNoEarlier(ios: seq<Io>, log: seq<Write>, front: nat, hi: nat, i: nat, j: nat)
    requires ShapeInv(ios, log, front, hi) && CountInv(ios, log, front, hi)
    requires front <= i < j < hi && ios[j].state == Submitted
    ensures !Overlaps(log[i], log[j])
  {
    assert i in Earlier(log, front, j) <==> Overlaps(log[i], log[j]);
  }

  lemma {:induction false} PendingDisjoint(ios: seq<Io>, log: seq<Write>, front: nat, hi: nat, sk: set<nat>, aio: Aio,
                                           done: set<nat>,
                        owner: map<nat, nat>, k: nat, a: nat)
    requires ShapeInv(ios, log, front, hi) && CountInv(ios, log, front, hi)
    requires KeyInv(ios, log, front, hi, sk, aio, done, owner)
    requires k in aio.pending && Covers(aio.pending[k].w, a)
    ensures OnlyOne(aio.pending, k, a)
  {
    forall k' | k' in aio.pending && k' != k ensures !Covers(aio.pending[k'].w, a) {
      var i, j := owner[k], owner[k'];
      if i < j { SubmittedHasNoEarlier(ios, log, front, hi, i, j); }
      if j < i { SubmittedHasNoEarlier(ios, log, front, hi, j, i); }
    }
  }

  lemma {:induction false} KernelDev(ios: seq<Io>, log: seq<Write>, front: nat, hi: nat, sk: set<nat>, aio: Aio,
                                     done: set<nat>,
                  owner: map<nat, nat>, landed: set<nat>, dev0: Device, dev: Device, c: set<nat>, dev': Device)
    requires ShapeInv(ios, log, front, hi) && CountInv(ios, log, front, hi)
    requires KeyInv(ios, log, front, hi, sk, aio, done, owner) && LandInv(ios, front, hi, sk, aio, landed)
    requires DevInv(log, hi, landed, aio.pending, dev0, dev) && KernelStep(aio.pending, c, dev, dev')
    ensures DevInv(log, hi, landed + OwnersOf(owner, c), aio.pending - c, dev0, dev')
  {
    var landed' := landed + OwnersOf(owner, c);
    forall a: nat | !InFlight(aio.pending - c, a)
      ensures dev'(a) == LiveByte(log, landed', hi, a, dev0)
    {
      if InFlight(aio.pending, a) {
        var k :| k in aio.pending && Covers(aio.pending[k].w, a);
        assert k in c by { assert k !in aio.pending - c; }
        PendingDisjoint(ios, log, front, hi, sk, aio, done, owner, k, a);
        var i := owner[k];
        forall j | i < j < hi && j in landed' ensures !Covers(log[j], a) {
          SubmittedHasNoEarlier(ios, log, front, hi, i, j);
        }
        LiveByteIs(log, landed', hi, a, dev0, i);
      } else {
        forall j | 0 <= j < hi && Covers(log[j], a) ensures j in landed <==> j in landed' {
          assert forall k :: k in c ==> !Covers(aio.pending[k].w, a);
        }
        LiveByteSame(log, log, landed, landed', hi, a, dev0);
      }
    }
  }

  lemma {:induction false} KernelKey(ios: seq<Io>, log: seq<Write>, front: nat, hi: nat, sk: set<nat>, aio: Aio,
                                     done: set<nat>,
                  owner: map<nat, nat>, c: set<nat>)
    requires |ios| == |log| && hi <= |ios| && c <= aio.pending.Keys
    requires KeyInv(ios, log, front, hi, sk, aio, done, owner)
    ensures KeyInv(ios, log, front, hi, sk, aio.(pending := aio.pending - c,
                   completed := aio.completed + (map k | k in c :: aio.pending[k])), done, owner)
  {
    var aio' := aio.(pending := aio.pending - c, completed := aio.completed + (map k | k in c :: aio.pending[k]));
    forall k: nat ensures k in owner <==> OnePlace(k, sk, aio', done) {
      assert OnePlace(k, sk, aio, done) <==> k in owner;
    }
  }

  lemma {:induction false} KernelRest(ios: seq<Io>, log: seq<Write>, front: nat, hi: nat, sk: set<nat>, aio: Aio,
                                      done: set<nat>,
                   owner: map<nat, nat>, landed: set<nat>, c: set<nat>)
    requires |ios| == |log| && hi <= |ios| && c <= aio.pending.Keys
    requires KeyInv(ios, log, front, hi, sk, aio, done, owner) && LandInv(ios, front, hi, sk, aio, landed)
    ensures var aio' := aio.(pending := aio.pending - c,
                             completed := aio.completed + (map k | k in c :: aio.pending[k]));
            KeyInv(ios, log, front, hi, sk, aio', done, owner)
            && LandInv(ios, front, hi, sk, aio', landed + OwnersOf(owner, c))
  {
    var aio' := aio.(pending := aio.pending - c, completed := aio.completed + (map k | k in c :: aio.pending[k]));
    KernelKey(ios, log, front, hi, sk, aio, done, owner, c);
    hide OnePlace;
    var landed' := landed + OwnersOf(owner, c);
    forall i | front <= i < hi && ios[i].state == Submitted
      ensures i in landed' <==> ios[i].aioKey !in aio.pending - c && ios[i].aioKey !in sk
    {
      assert owner[ios[i].aioKey] == i;
      assert forall k :: k in c && owner[k] == i ==> k == ios[i].aioKey;
    }
  }

  /** The oldest IO's key, landed, is forgotten. */
  lemma {:induction false} ReapKey(ios: seq<Io>, log: seq<Write>, lo: nat, hi: nat, sk: set<nat>, aio: Aio,
                                   done: set<nat>,
                owner: map<nat, nat>, landed: set<nat>, k: nat)
    requires |ios| == |log| && lo < hi <= |ios| && ios[lo].state == Submitted && k == ios[lo].aioKey
    requires KeyInv(ios, log, lo, hi, sk, aio, done, owner) && LandInv(ios, lo, hi, sk, aio, landed)
    requires k in aio.completed || k in done
    ensures k !in sk
    ensures KeyInv(ios, log, lo + 1, hi, sk, aio.(completed := aio.completed - {k}), done - {k}, owner - {k})
    ensures LandInv(ios, lo + 1, hi, sk, aio.(completed := aio.completed - {k}), landed)
  {
    var aio' := aio.(completed := aio.completed - {k});
    forall k': nat ensures k' in owner - {k} <==> OnePlace(k', sk, aio', done - {k}) {
      assert OnePlace(k', sk, aio, done) <==> k' in owner;
    }
  }

  lemma {:induction false} ReportKey(ios: seq<Io>, log: seq<Write>, lo: nat, hi: nat, sk: set<nat>, aio: Aio,
                                     done: set<nat>,
                  owner: map<nat, nat>)
    requires |ios| == |log| && hi <= |ios| && KeyInv(ios, log, lo, hi, sk, aio, done, owner)
    ensures KeyInv(ios, log, lo, hi, sk, aio.(completed := map[]), done + aio.completed.Keys, owner)
  {
    var aio', done' := aio.(completed := map[]), done + aio.completed.Keys;
    forall k: nat ensures k in owner <==> OnePlace(k, sk, aio', done') {
      assert OnePlace(k, sk, aio, done) <==> k in owner;
    }
  }

  lemma {:induction false} SkippedKey(ios: seq<Io>, log: seq<Write>, lo: nat, hi: nat, sk: set<nat>, aio: Aio,
                                      done: set<nat>,
                   owner: map<nat, nat>)
    requires |ios| == |log| && lo < hi <= |ios| && ios[lo].state == Overwritten
    requires KeyInv(ios, log, lo, hi, sk, aio, done, owner)
    ensures KeyInv(ios, log, lo + 1, hi, sk, aio, done, owner)
  {
  }

  lemma {:induction false} SkippedLand(ios: seq<Io>, lo: nat, hi: nat, sk: set<nat>, aio: Aio, landed: set<nat>)
    requires lo < hi <= |ios| && ios[lo].state == Overwritten && LandInv(ios, lo, hi, sk, aio, landed)
    ensures LandInv(ios, lo + 1, hi, sk, aio, landed)
  {
  }

  lemma {:induction false} LandFrame(ios: seq<Io>, lo: nat, hi: nat, sk: set<nat>, aio: Aio, aio': Aio,
                                     landed: set<nat>)
    requires hi <= |ios| && aio'.pending == aio.pending && LandInv(ios, lo, hi, sk, aio, landed)
    ensures LandInv(ios, lo, hi, sk, aio', landed)
  {
  }

  // ---- quiescence ----

  /** With nothing left in the queue, the device holds what doing the whole log in order would leave. */
  lemma {:induction false} QuiescentDevice(ios: seq<Io>, log: seq<Write>, sk: set<nat>, aio: Aio, landed: set<nat>,
                                           dev0: Device, dev: Device)
    requires ShapeInv(ios, log, |ios|, |ios|) && SkipInv(ios, log, |ios|)
    requires LandInv(ios, |ios|, |ios|, sk, aio, landed) && aio.pending == map[]
    requires DevInv(log, |ios|, landed, aio.pending, dev0, dev)
    ensures IsFifoResult(log, dev0, dev)
  {
    forall a: nat ensures dev(a) == Byte(log, |log|, a, dev0) {
      assert !InFlight(aio.pending, a);
      forall i | 0 <= i < |log| && i !in landed ensures exists j :: i < j < |log| && CoveredBy(log[i], log[j]) {
        assert Rewritten(log, |log|, i);
      }
      SkippedDoNotShow(log, landed, |log|, a, dev0);
    }
  }

  // ---- a prepared IO enters the queue ----

  ghost predicate SameBelow(log: seq<Write>, log': seq<Write>, hi: nat) {
    hi <= |log| && hi <= |log'| && forall i :: 0 <= i < hi ==> log[i] == log'[i]
  }

  lemma {:induction false} AppendShape(ios: seq<Io>, log: seq<Write>, front: nat, hi: nat, w: Write)
    requires ShapeInv(ios, log, front, hi) && 0 < |w.data| < TWO32
    ensures ShapeInv(ios + [Io(w, 0, 0xffff_ffff, Init)], log + [w], front, hi)
    ensures SameBelow(log, log + [w], hi)
  {
  }

  lemma {:induction false} MergeShape(ios: seq<Io>, log: seq<Write>, front: nat, hi: nat, w: Write)
    requires ShapeInv(ios, log, front, hi) && hi < |ios| && 0 < |Merged(ios[hi].w, w).data| < TWO32
    ensures var m := Merged(ios[hi].w, w);
            ios[hi].w == log[hi]
            && ShapeInv(ios[hi := ios[hi].(w := m)], log[hi := m], front, hi) && SameBelow(log, log[hi := m], hi)
  {
  }

  lemma {:induction false} ReadyBelow(ios: seq<Io>, front: nat, hi: nat, ready: seq<nat>)
    requires hi <= |ios| && ReadyInv(ios, front, hi, ready)
    ensures forall p :: 0 <= p < |ready| ==> ready[p] < hi
  {
  }

  lemma {:induction false} SubmittedNotReady(ios: seq<Io>, front: nat, hi: nat, ready: seq<nat>, x: nat)
    requires x < hi <= |ios| && ReadyInv(ios, front, hi, ready) && ios[x].state == Submitted
    ensures x !in ready
  {
  }

  lemma {:induction false} PrepareKeeps(ios: seq<Io>, ios': seq<Io>, log: seq<Write>, log': seq<Write>, front: nat,
                                        hi: nat,
                     s: seq<nat>, maxSize: nat, ready: seq<nat>)
    requires ShapeInv(ios, log, front, hi) && ShapeInv(ios', log', front, hi)
    requires SameBelow(log, log', hi) && (forall i :: 0 <= i < hi ==> ios[i] == ios'[i])
    requires SetInv(log, front, hi, s, maxSize) && CountInv(ios, log, front, hi)
    requires ReadyInv(ios, front, hi, ready) && SkipInv(ios, log, hi)
    ensures SetInv(log', front, hi, s, maxSize) && CountInv(ios', log', front, hi)
    ensures ReadyInv(ios', front, hi, ready) && SkipInv(ios', log', hi)
  {
    forall p, q | 0 <= p < q < |s| ensures Before(log', s[p], s[q]) {
      assert Before(log, s[p], s[q]);
    }
    forall j | front <= j < hi ensures Earlier(log', front, j) == Earlier(log, front, j) {
    }
    forall i | 0 <= i < hi && ios'[i].state == Overwritten ensures Rewritten(log', hi, i) {
      assert Rewritten(log, hi, i);
      var j :| i < j < hi && CoveredBy(log[i], log[j]);
      assert CoveredBy(log'[i], log'[j]);
    }
  }

  lemma {:induction false} PrepareKeyLand(ios: seq<Io>, ios': seq<Io>, log: seq<Write>, log': seq<Write>, lo: nat,
                                          hi: nat,
                       sk: set<nat>, aio: Aio, done: set<nat>, owner: map<nat, nat>, landed: set<nat>)
    requires |ios| == |log| && |ios'| == |log'| && hi <= |ios| && hi <= |ios'|
    requires SameBelow(log, log', hi) && (forall i :: 0 <= i < hi ==> ios[i] == ios'[i])
    requires KeyInv(ios, log, lo, hi, sk, aio, done, owner) && LandInv(ios, lo, hi, sk, aio, landed)
    ensures KeyInv(ios', log', lo, hi, sk, aio, done, owner) && LandInv(ios', lo, hi, sk, aio, landed)
  {
  }

  /** An overwritten IO may leave the ready set. */
  lemma {:induction false} EraseReady(ios: seq<Io>, front: nat, hi: nat, ready: seq<nat>, p: nat)
    requires hi <= |ios| && ReadyInv(ios, front, hi, ready) && p < |ready|
    requires ready[p] < |ios| && ios[ready[p]].state == Overwritten
    ensures ReadyInv(ios, front, hi, Without(ready, p)) && ready[p] !in Without(ready, p)
  {
    var x, u := ready[p], Without(ready, p);
    forall q | 0 <= q < |u| ensures u[q] in ready && u[q] != x {
      assert q < p ==> Apart(ready, q, p);
      assert p <= q ==> Apart(ready, p, q + 1);
      assert u[q] == ready[if q < p then q else q + 1];
    }
    forall q, r | 0 <= q < r < |u| ensures Apart(u, q, r) {
      assert Apart(ready, if q < p then q else q + 1, if r < p then r else r + 1);
    }
    forall i | i in ready && i != x ensures i in u {
      var q :| 0 <= q < |ready| && ready[q] == i;
      assert u[if q < p then q else q - 1] == i;
    }
  }

  lemma {:induction false} ReadyIsProcessing(ios: seq<Io>, front: nat, hi: nat, ready: seq<nat>)
    requires hi <= |ios| && ReadyInv(ios, front, hi, ready)
    ensures ready != [] ==> front < hi
  {
    if ready != [] { assert front <= ready[0] < hi; }
  }

  lemma {:induction false} SetIsProcessing(log: seq<Write>, front: nat, hi: nat, s: seq<nat>, maxSize: nat)
    requires SetInv(log, front, hi, s, maxSize)
    ensures s != [] ==> front < hi
  {
    if s != [] { assert front <= s[0] < hi; }
  }

  lemma {:induction false} SubmitQIsProcessing(ios: seq<Io>, log: seq<Write>, lo: nat, hi: nat, sk: set<nat>, aio: Aio,
                                               done: set<nat>,
                            owner: map<nat, nat>)
    requires |ios| == |log| && hi <= |ios| && KeyInv(ios, log, lo, hi, sk, aio, done, owner)
    requires SubmitQInv(log, aio.submitQ, sk, owner)
    ensures aio.submitQ != [] ==> lo < hi
  {
    if aio.submitQ != [] {
      assert aio.submitQ[0] in aio.submitQ;
      assert lo <= owner[aio.submitQ[0].key] < hi;
    }
  }

  lemma {:induction false} DiscardKey(ios: seq<Io>, log: seq<Write>, sk: set<nat>, aio: Aio, done: set<nat>,
                                      owner: map<nat, nat>,
                   w: Write)
    requires |ios| == |log| && KeyInv(ios, log, |ios|, |ios|, sk, aio, done, owner)
    ensures KeyInv(ios + [Io(w, 0, 0, Submitted)], log + [w], |ios| + 1, |ios| + 1, sk, aio, done, owner)
    ensures owner == map[]
  {
    assert forall k :: k !in owner;
  }

  lemma {:induction false} DiscardLand(ios: seq<Io>, sk: set<nat>, aio: Aio, landed: set<nat>, w: Write)
    requires LandInv(ios, |ios|, |ios|, sk, aio, landed)
    ensures LandInv(ios + [Io(w, 0, 0, Submitted)], |ios| + 1, |ios| + 1, sk, aio, landed + {|ios|})
  {
  }

  lemma {:induction false} DiscardSkip(ios: seq<Io>, log: seq<Write>, w: Write)
    requires |ios| == |log| && SkipInv(ios, log, |ios|)
    ensures SkipInv(ios + [Io(w, 0, 0, Submitted)], log + [w], |ios| + 1)
  {
    var ios', log' := ios + [Io(w, 0, 0, Submitted)], log + [w];
    forall i | 0 <= i < |ios| + 1 && ios'[i].state == Overwritten ensures Rewritten(log', |ios| + 1, i) {
      assert Rewritten(log, |ios|, i);
      var j :| i < j < |ios| && CoveredBy(log[i], log[j]);
      assert CoveredBy(log'[i], log'[j]);
    }
  }

  lemma {:induction false} PrepareDev(log: seq<Write>, log': seq<Write>, hi: nat, landed: set<nat>, pending: map<nat,
                                      AioData>,
                   dev0: Device, dev: Device)
    requires SameBelow(log, log', hi) && DevInv(log, hi, landed, pending, dev0, dev)
    ensures DevInv(log', hi, landed, pending, dev0, dev)
  {
    forall a: nat | !InFlight(pending, a) ensures dev(a) == LiveByte(log', landed, hi, a, dev0) {
      LiveByteSame(log, log', landed, landed, hi, a, dev0);
    }
  }
}
