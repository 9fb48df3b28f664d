/**
 State of the asynchronous block writer (src/bdev_writer.hpp) and the invariants its steps keep.
 An IO object is named by the position it got when it entered `IoQueue::list_`; the `Io*` kept in
 the offset-ordered multisets are these names.
 */
module WriterState {
  import opened BlockWrites
  import opened RangeUtil

  datatype IoState = Init | Overwritten | Submitted

  datatype Io = Io(w: Write, aioKey: nat, nOverlapped: nat, state: IoState)

  /** `ios[front..fetched]` are processing, `ios[fetched..]` are fetched, `ios[..front]` were popped. */
  datatype IoQueue = IoQueue(ios: seq<Io>, front: nat, fetched: nat, processingSize: nat, fetchedSize: nat)

  datatype ReadyQueue = ReadyQueue(ioSet: seq<nat>, totalSize: nat, doneSet: set<nat>)

  datatype OverlappedSerializer = OverlappedSerializer(ioSet: seq<nat>, maxSize: nat)

  datatype AioData = AioData(key: nat, w: Write)

  datatype Aio = Aio(queueSize: nat, submitQ: seq<AioData>, pending: map<nat, AioData>,
                     completed: map<nat, AioData>, key: nat)

  // ---- invariants ----

  /** `log` is the list of writes in queue order, after merging. */
  ghost predicate ShapeInv(ios: seq<Io>, log: seq<Write>, front: nat, hi: nat) {
    && front <= hi <= |ios| == |log|
    && (forall i :: 0 <= i < |ios| ==> ios[i].w == log[i])
    && (forall i :: front <= i < |log| ==> 0 < |log[i].data| < TWO32)
    && (forall i :: hi <= i < |ios| ==> ios[i].state == Init)
    && (forall i :: 0 <= i < front ==> ios[i].state != Init)
  }

  /** Names in an IO multiset: ordered by offset, equal offsets in insertion order. */
  ghost predicate SetInv(log: seq<Write>, front: nat, hi: nat, s: seq<nat>, maxSize: nat) {
    && hi <= |log|
    && (forall p :: 0 <= p < |s| ==> front <= s[p] < hi)
    && (forall p, q :: 0 <= p < q < |s| ==> Before(log, s[p], s[q]))
    && (forall i :: front <= i < hi ==> i in s)
    && (forall i :: front <= i < hi ==> |log[i].data| <= maxSize)
  }

  ghost predicate Before(log: seq<Write>, x: nat, y: nat) {
    && x < |log| && y < |log|
    && log[x].offset <= log[y].offset
    && (log[x].offset == log[y].offset ==> x < y)
  }

  /** Earlier IOs, from `lo` on, that overlap IO j. */
  ghost function Earlier(log: seq<Write>, lo: nat, j: nat): set<nat>
    requires j < |log|
  {
    set i | lo <= i < j && Overlaps(log[i], log[j])
  }

  ghost predicate CountInv(ios: seq<Io>, log: seq<Write>, front: nat, hi: nat)
    requires |ios| == |log| && hi <= |ios|
  {
    && (forall j {:trigger Earlier(log, front, j)} ::
          front <= j < hi ==> ios[j].nOverlapped == |Earlier(log, front, j)|)
    && (forall j :: front <= j < hi && ios[j].state == Submitted ==> ios[j].nOverlapped == 0)
  }

  ghost predicate NoDup(s: seq<nat>) {
    forall p, q {:trigger Apart(s, p, q)} :: 0 <= p < q < |s| ==> Apart(s, p, q)
  }

  ghost predicate Apart(s: seq<nat>, p: int, q: int)
    requires 0 <= p < q < |s|
  {
    s[p] != s[q]
  }

  ghost predicate ReadyInv(ios: seq<Io>, front: nat, hi: nat, ready: seq<nat>)
    requires hi <= |ios|
  {
    && NoDup(ready)
    && (forall p :: 0 <= p < |ready| ==> front <= ready[p] < hi)
    && (forall i :: i in ready ==> front <= i < hi && ios[i].nOverlapped == 0 && ios[i].state != Submitted)
    && (forall i :: front <= i < hi && ios[i].nOverlapped == 0 && ios[i].state == Init ==> i in ready)
  }

  /** A skipped IO is wholly rewritten by a later one. */
  ghost predicate SkipInv(ios: seq<Io>, log: seq<Write>, hi: nat)
    requires |ios| == |log| && hi <= |ios|
  {
    forall i {:trigger Rewritten(log, hi, i)} :: 0 <= i < hi && ios[i].state == Overwritten ==> Rewritten(log, hi, i)
  }

  ghost predicate Rewritten(log: seq<Write>, hi: nat, i: int)
    requires hi <= |log|
  {
    0 <= i < hi && exists j :: i < j < hi && CoveredBy(log[i], log[j])
  }

  ghost function KeysOf(q: seq<AioData>): (keys: set<nat>)
    ensures |keys| <= |q|
  {
    if q == [] then {} else {q[0].key} + KeysOf(q[1..])
  }

  /** The prepared requests not yet handed to the kernel; `sk` are their keys. */
  ghost predicate SubmitQInv(log: seq<Write>, q: seq<AioData>, sk: set<nat>, owner: map<nat, nat>) {
    && KeysOf(q) == sk && |sk| == |q|
    && (forall d :: d in q ==> d.key in owner && owner[d.key] < |log| && d.w == log[owner[d.key]])
  }

  /** Every submitted IO from `lo` on has its key in exactly one place; `owner` names the IO of a key. */
  ghost predicate KeyInv(ios: seq<Io>, log: seq<Write>, lo: nat, hi: nat, sk: set<nat>, aio: Aio, done: set<nat>,
                         owner: map<nat, nat>)
    requires |ios| == |log| && hi <= |ios|
  {
    && (forall k :: k in owner ==> lo <= owner[k] < hi && ios[owner[k]].state == Submitted
                                   && ios[owner[k]].aioKey == k && 0 < k < aio.key)
    && (forall i :: lo <= i < hi && ios[i].state == Submitted
                    ==> ios[i].aioKey in owner && owner[ios[i].aioKey] == i)
    && (forall k {:trigger OnePlace(k, sk, aio, done)} :: k in owner <==> OnePlace(k, sk, aio, done))
    && (forall k :: k in sk ==> k in owner && k !in aio.pending && k !in aio.completed && k !in done)
    && (forall k :: k in aio.pending ==> k in owner && k !in aio.completed && k !in done)
    && (forall k :: k in aio.completed ==> k in owner && k !in done)
    && (forall k :: k in done ==> k in owner)
    && (forall k :: k in aio.pending ==> aio.pending[k].key == k && aio.pending[k].w == log[owner[k]])
    && 0 < aio.key
  }

  ghost predicate OnePlace(k: nat, sk: set<nat>, aio: Aio, done: set<nat>) {
    k in sk || k in aio.pending || k in aio.completed || k in done
  }

  /** Which writes have reached the device: those submitted and no longer in the kernel's hands. */
  ghost predicate LandInv(ios: seq<Io>, lo: nat, hi: nat, sk: set<nat>, aio: Aio, landed: set<nat>)
    requires hi <= |ios|
  {
    && (forall i :: i in landed ==> 0 <= i < hi && ios[i].state == Submitted)
    && (forall i {:trigger i in landed} :: 0 <= i < lo && i < hi && ios[i].state == Submitted ==> i in landed)
    && (forall i {:trigger i in landed} :: lo <= i < hi && ios[i].state == Submitted
                    ==> (i in landed <==> ios[i].aioKey !in aio.pending && ios[i].aioKey !in sk))
  }

  ghost predicate InFlight(pending: map<nat, AioData>, a: nat) {
    exists k :: k in pending && Covers(pending[k].w, a)
  }

  /** Outside the ranges in flight the device holds the last landed write of each byte. */
  ghost predicate DevInv(log: seq<Write>, hi: nat, landed: set<nat>, pending: map<nat, AioData>,
                         dev0: Device, dev: Device)
    requires hi <= |log|
  {
    forall a: nat :: !InFlight(pending, a) ==> dev(a) == LiveByte(log, landed, hi, a, dev0)
  }

  // ---- sums of sizes ----

  function SumLog(log: seq<Write>, lo: nat, hi: nat): nat
    requires hi <= |log|
    decreases hi
  {
    if hi <= lo then 0 else SumLog(log, lo, hi - 1) + |log[hi - 1].data|
  }

  ghost function SumSet(log: seq<Write>, s: seq<nat>): nat
    requires forall p :: 0 <= p < |s| ==> s[p] < |log|
  {
    if s == [] then 0 else |log[s[0]].data| + SumSet(log, s[1..])
  }

  lemma {:induction false} SumLogFront(log: seq<Write>, lo: nat, hi: nat)
    requires lo < hi <= |log|
    ensures SumLog(log, lo, hi) == |log[lo].data| + SumLog(log, lo + 1, hi)
  {
    if lo + 1 < hi { SumLogFront(log, lo, hi - 1); }
  }

  lemma {:induction false} SumLogSplit(log: seq<Write>, lo: nat, mid: nat, hi: nat)
    requires lo <= mid <= hi <= |log|
    ensures SumLog(log, lo, hi) == SumLog(log, lo, mid) + SumLog(log, mid, hi)
  {
    if mid < hi { SumLogSplit(log, lo, mid, hi - 1); }
  }

  lemma {:induction false} SumLogSame(log: seq<Write>, log': seq<Write>, lo: nat, hi: nat)
    requires hi <= |log| && hi <= |log'|
    requires forall i :: lo <= i < hi ==> |log[i].data| == |log'[i].data|
    ensures SumLog(log, lo, hi) == SumLog(log', lo, hi)
    decreases hi
  {
    if lo < hi { SumLogSame(log, log', lo, hi - 1); }
  }

  lemma {:induction false} SumSetSame(log: seq<Write>, log': seq<Write>, s: seq<nat>)
    requires forall p :: 0 <= p < |s| ==> s[p] < |log| && s[p] < |log'| && log[s[p]] == log'[s[p]]
    ensures SumSet(log, s) == SumSet(log', s)
  {
    if s != [] { SumSetSame(log, log', s[1..]); }
  }

  lemma {:induction false} SumSetInsert(log: seq<Write>, s: seq<nat>, p: nat, x: nat)
    requires p <= |s| && x < |log|
    requires forall q :: 0 <= q < |s| ==> s[q] < |log|
    ensures SumSet(log, s[..p] + [x] + s[p..]) == SumSet(log, s) + |log[x].data|
  {
    var t := s[..p] + [x] + s[p..];
    if p == 0 {
      assert t[1..] == s;
    } else {
      SumSetInsert(log, s[1..], p - 1, x);
      assert t[1..] == s[1..][..p - 1] + [x] + s[1..][p - 1..];
    }
  }

  function Without<T>(s: seq<T>, p: nat): seq<T>
    requires p < |s|
  {
    s[..p] + s[p + 1..]
  }

  lemma {:induction false} SumSetRemove(log: seq<Write>, s: seq<nat>, p: nat)
    requires p < |s|
    requires forall q :: 0 <= q < |s| ==> s[q] < |log|
    ensures var t := Without(s, p);
            (forall q :: 0 <= q < |t| ==> t[q] < |log|) && SumSet(log, s) == SumSet(log, t) + |log[s[p]].data|
  {
    var t := Without(s, p);
    SumSetInsert(log, t, p, s[p]);
    assert t[..p] + [s[p]] + t[p..] == s;
  }

  // ---- ordered insertion: std::multiset::insert puts an element after its equals ----

  function UpperBound(ios: seq<Io>, s: seq<nat>, key: nat): (p: nat)
    requires forall q :: 0 <= q < |s| ==> s[q] < |ios|
    ensures p <= |s|
    ensures forall q :: 0 <= q < p ==> ios[s[q]].w.offset <= key
    ensures p < |s| ==> key < ios[s[p]].w.offset
  {
    if s == [] || key < ios[s[0]].w.offset then 0 else 1 + UpperBound(ios, s[1..], key)
  }

  function LowerBound(ios: seq<Io>, s: seq<nat>, key: nat): (p: nat)
    requires forall q :: 0 <= q < |s| ==> s[q] < |ios|
    ensures p <= |s|
    ensures forall q :: 0 <= q < p ==> ios[s[q]].w.offset < key
    ensures p < |s| ==> key <= ios[s[p]].w.offset
  {
    if s == [] || key <= ios[s[0]].w.offset then 0 else 1 + LowerBound(ios, s[1..], key)
  }

  function Insert(ios: seq<Io>, s: seq<nat>, x: nat): seq<nat>
    requires x < |ios| && forall q :: 0 <= q < |s| ==> s[q] < |ios|
  {
    var p := UpperBound(ios, s, ios[x].w.offset);
    s[..p] + [x] + s[p..]
  }

  lemma {:induction false} InsertMembers(ios: seq<Io>, s: seq<nat>, x: nat)
    requires x < |ios| && forall q :: 0 <= q < |s| ==> s[q] < |ios|
    ensures forall y :: y in Insert(ios, s, x) <==> y == x || y in s
    ensures forall q :: 0 <= q < |Insert(ios, s, x)| ==> Insert(ios, s, x)[q] == x || Insert(ios, s, x)[q] in s
    ensures x !in s && NoDup(s) ==> NoDup(Insert(ios, s, x))
  {
    var p := UpperBound(ios, s, ios[x].w.offset);
    var t := Insert(ios, s, x);
    assert s == s[..p] + s[p..];
    if x !in s && NoDup(s) {
      forall q, r | 0 <= q < r < |t| ensures Apart(t, q, r) {
        assert q != p && r != p ==> Apart(s, if q < p then q else q - 1, if r < p then r else r - 1);
      }
    }
  }

  lemma {:induction false} InsertSize(ios: seq<Io>, log: seq<Write>, ready: seq<nat>, f: nat)
    requires f < |ios| == |log| && forall p :: 0 <= p < |ready| ==> ready[p] < |ios|
    ensures var t := Insert(ios, ready, f);
            (forall p :: 0 <= p < |t| ==> t[p] < |log|) && SumSet(log, t) == SumSet(log, ready) + |log[f].data|
  {
    SumSetInsert(log, ready, UpperBound(ios, ready, ios[f].w.offset), f);
  }

  // ---- the ready set stays in offset order ----

  ghost predicate Ordered(log: seq<Write>, s: seq<nat>) {
    forall p, q {:trigger InOrder(log, s, p, q)} :: 0 <= p < q < |s| ==> InOrder(log, s, p, q)
  }

  ghost predicate InOrder(log: seq<Write>, s: seq<nat>, p: int, q: int)
    requires 0 <= p < q < |s|
  {
    s[p] < |log| && s[q] < |log| && log[s[p]].offset <= log[s[q]].offset
  }

  lemma {:induction false} OrderedInsert(ios: seq<Io>, log: seq<Write>, s: seq<nat>, x: nat)
    requires x < |ios| == |log| && forall i :: 0 <= i < |ios| ==> ios[i].w == log[i]
    requires Ordered(log, s) && forall q :: 0 <= q < |s| ==> s[q] < |ios|
    ensures Ordered(log, Insert(ios, s, x))
  {
    var u := UpperBound(ios, s, ios[x].w.offset);
    var t := Insert(ios, s, x);
    forall p, q | 0 <= p < q < |t| ensures InOrder(log, t, p, q) {
      if p != u && q != u {
        assert InOrder(log, s, if p < u then p else p - 1, if q < u then q else q - 1);
      } else if p == u && u + 1 < q {
        assert InOrder(log, s, u, q - 1);
      }
    }
  }

  lemma {:induction false} OrderedWithout(log: seq<Write>, s: seq<nat>, u: nat)
    requires u < |s| && Ordered(log, s)
    ensures Ordered(log, Without(s, u))
  {
    var t := Without(s, u);
    forall p, q | 0 <= p < q < |t| ensures InOrder(log, t, p, q) {
      assert InOrder(log, s, if p < u then p else p + 1, if q < u then q else q + 1);
    }
  }

  lemma {:induction false} OrderedSame(log: seq<Write>, log': seq<Write>, s: seq<nat>)
    requires Ordered(log, s)
    requires forall p :: 0 <= p < |s| ==> s[p] < |log| && s[p] < |log'| && log[s[p]].offset == log'[s[p]].offset
    ensures Ordered(log', s)
  {
    forall p, q | 0 <= p < q < |s| ensures InOrder(log', s, p, q) {
      assert InOrder(log, s, p, q);
    }
  }

  /** An element of an ordered set lies between the bounds of its own offset (`equal_range`). */
  lemma {:induction false} InEqualRange(ios: seq<Io>, log: seq<Write>, s: seq<nat>, x: nat)
    requires x < |ios| == |log| && forall i :: 0 <= i < |ios| ==> ios[i].w == log[i]
    requires Ordered(log, s) && forall q :: 0 <= q < |s| ==> s[q] < |ios|
    ensures x in s ==> x in s[LowerBound(ios, s, ios[x].w.offset)..]
    ensures forall q :: UpperBound(ios, s, ios[x].w.offset) <= q < |s| ==> s[q] != x
  {
    var l, u := LowerBound(ios, s, ios[x].w.offset), UpperBound(ios, s, ios[x].w.offset);
    assert forall q :: 0 <= q < l ==> s[q] != x;
    assert s == s[..l] + s[l..];
    forall q | u <= q < |s| ensures s[q] != x {
      assert u < q ==> InOrder(log, s, u, q);
    }
  }
}
