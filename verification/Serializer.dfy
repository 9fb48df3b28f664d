/** The two loops of `OverlappedSerializer` (src/bdev_writer.cpp), which scan the IOs near a given one. */
module Serializer {
  import opened BlockWrites
  import opened RangeUtil
  import opened WriterState
  import opened WriterSteps

  /** The 32-bit tests of range_util.hpp agree with the plain ones on sizes that fit. */
  lemma {:induction false} TestsAgree(x: Write, y: Write)
    requires |x.data| < TWO32 && |y.data| < TWO32
    ensures IsOverlapped(x.offset, |x.data|, y.offset, |y.data|) <==> Overlaps(x, y)
    ensures IsOverwritten(x.offset, |x.data|, y.offset, |y.data|) <==> CoveredBy(x, y)
  {
  }

  /** First key of the scan: no IO of the set that starts before it can reach `w`. */
  function ScanFrom(w: Write, maxSize: nat): nat {
    if maxSize < w.offset then w.offset - maxSize else 0
  }

  /** The scan `[ScanFrom, offset + size)` of `forEachOverlapped` misses no overlapping IO. */
  lemma {:induction false} ScanMissesNothing(x: Write, w: Write, maxSize: nat)
    requires |x.data| <= maxSize && Overlaps(x, w)
    ensures ScanFrom(w, maxSize) <= x.offset < w.offset + |w.data|
  {
  }

  /** The IOs among the first n of the set that overlap w. */
  ghost function Hits(log: seq<Write>, s: seq<nat>, w: Write, n: nat): set<nat>
    requires n <= |s| && forall q :: 0 <= q < |s| ==> s[q] < |log|
  {
    if n == 0 then {}
    else Hits(log, s, w, n - 1) + if Overlaps(log[s[n - 1]], w) then {s[n - 1]} else {}
  }

  lemma {:induction false} HitsMember(log: seq<Write>, s: seq<nat>, w: Write, n: nat, i: nat)
    requires n <= |s| && forall q :: 0 <= q < |s| ==> s[q] < |log|
    ensures i in Hits(log, s, w, n) <==> i < |log| && i in s[..n] && Overlaps(log[i], w)
  {
    if n > 0 {
      HitsMember(log, s, w, n - 1, i);
      assert s[..n] == s[..n - 1] + [s[n - 1]];
    }
  }

  lemma {:induction false} HitsNew(log: seq<Write>, front: nat, hi: nat, s: seq<nat>, maxSize: nat, w: Write, n: nat)
    requires SetInv(log, front, hi, s, maxSize) && n < |s|
    ensures s[n] !in Hits(log, s, w, n)
  {
    HitsMember(log, s, w, n, s[n]);
    forall q | 0 <= q < n ensures s[q] != s[n] { assert Before(log, s[q], s[n]); }
  }

  /** Nothing before the start of the scan overlaps w. */
  lemma {:induction false} HitsNoneBefore(log: seq<Write>, front: nat, hi: nat, s: seq<nat>, maxSize: nat, w: Write,
                                          n: nat)
    requires SetInv(log, front, hi, s, maxSize) && n <= |s|
    requires forall q :: 0 <= q < n ==> log[s[q]].offset < ScanFrom(w, maxSize)
    ensures Hits(log, s, w, n) == {}
  {
    forall i | i in Hits(log, s, w, n) ensures false {
      HitsMember(log, s, w, n, i);
      ScanMissesNothing(log[i], w, maxSize);
    }
  }

  /** The later queued IOs that overlap IO x. */
  ghost function Waiters(log: seq<Write>, x: nat, hi: nat): set<nat>
    requires x < hi <= |log|
  {
    set i | x + 1 <= i < hi && Overlaps(log[i], log[x])
  }

  /** The scan finds every overlapping IO of the set. */
  lemma {:induction false} HitsAll(log: seq<Write>, front: nat, hi: nat, s: seq<nat>, maxSize: nat, w: Write, n: nat)
    requires SetInv(log, front, hi, s, maxSize) && n <= |s|
    requires n < |s| ==> w.offset + |w.data| <= log[s[n]].offset
    ensures Hits(log, s, w, n) == set i | front <= i < hi && Overlaps(log[i], w)
  {
    forall i: nat ensures i in Hits(log, s, w, n) <==> front <= i < hi && Overlaps(log[i], w) {
      HitsMember(log, s, w, n, i);
      if front <= i < hi && Overlaps(log[i], w) {
        assert i in s;
        var q :| 0 <= q < |s| && s[q] == i;
        if n < |s| { SetOrder(log, front, hi, s, maxSize, n, q); }
        assert s[..n][q] == i;
      }
    }
  }

  /** The IOs after counting the hits `h` of IO f. */
  ghost predicate MarkedBy(ios: seq<Io>, ios': seq<Io>, log: seq<Write>, f: nat, h: set<nat>)
    requires f < |ios| == |log|
  {
    && |ios'| == |ios|
    && (forall i :: 0 <= i < |ios| ==>
          && ios'[i].w == ios[i].w && ios'[i].aioKey == ios[i].aioKey
          && ios'[i].nOverlapped == (if i == f then |h| else ios[i].nOverlapped)
          && ios'[i].state == (if i in h && CoveredBy(log[i], log[f]) && ios[i].state == Init
                               then Overwritten else ios[i].state))
  }

  /** What `add` does to an overlapped IO x. */
  function MarkOne(ios: seq<Io>, f: nat, x: nat): seq<Io>
    requires f < |ios| && x < |ios|
  {
    var ios1 := ios[f := ios[f].(nOverlapped := ios[f].nOverlapped + 1)];
    if IsOverwritten(ios1[x].w.offset, |ios1[x].w.data|, ios1[f].w.offset, |ios1[f].w.data|) && ios1[x].state == Init
    then ios1[x := ios1[x].(state := Overwritten)]
    else ios1
  }

  lemma {:induction false} MarkStep(ios: seq<Io>, cur: seq<Io>, log: seq<Write>, f: nat, h: set<nat>, x: nat)
    requires x < f < |ios| == |log| && x !in h && MarkedBy(ios, cur, log, f, h)
    requires |log[x].data| < TWO32 && |log[f].data| < TWO32 && cur[x].w == log[x] && cur[f].w == log[f]
    ensures MarkedBy(ios, MarkOne(cur, f, x), log, f, h + {x})
  {
    TestsAgree(log[x], log[f]);
  }

  /** One iteration of the scan of `add`. */
  function MarkNext(ios: seq<Io>, f: nat, x: nat): (r: seq<Io>)
    requires f < |ios| && x < |ios|
    ensures |r| == |ios|
  {
    var w, v := ios[f].w, ios[x].w;
    if IsOverlapped(w.offset, |w.data|, v.offset, |v.data|) then MarkOne(ios, f, x) else ios
  }

  lemma {:induction false} MarkAdvance(ios: seq<Io>, cur: seq<Io>, log: seq<Write>, front: nat, f: nat, s: seq<nat>,
                                       maxSize: nat, it: nat)
    requires f < |ios| && ShapeInv(ios, log, front, f) && SetInv(log, front, f, s, maxSize) && it < |s|
    requires MarkedBy(ios, cur, log, f, Hits(log, s, log[f], it))
    ensures MarkedBy(ios, MarkNext(cur, f, s[it]), log, f, Hits(log, s, log[f], it + 1))
  {
    HitsNew(log, front, f, s, maxSize, log[f], it);
    TestsAgree(log[f], log[s[it]]);
    if Overlaps(log[s[it]], log[f]) {
      MarkStep(ios, cur, log, f, Hits(log, s, log[f], it), s[it]);
    }
  }

  lemma {:induction false} MarkDone(ios: seq<Io>, ios': seq<Io>, log: seq<Write>, front: nat, f: nat)
    requires f < |ios| && ShapeInv(ios, log, front, f)
    requires MarkedBy(ios, ios', log, f, Earlier(log, front, f))
    ensures Marked(ios, ios', log, front, f)
  {
    forall i | front <= i < f && CoveredBy(log[i], log[f]) ensures i in Earlier(log, front, f) {
    }
  }

  /** The loop of `forEachOverlapped` under `add`. */
  method MarkScan(ios: seq<Io>, s: seq<nat>, from: nat, f: nat, ghost log: seq<Write>, ghost front: nat,
                  ghost maxSize: nat)
    returns (ios': seq<Io>, it: nat)
    requires f < |ios| && ShapeInv(ios, log, front, f) && SetInv(log, front, f, s, maxSize)
    requires from <= |s| && Hits(log, s, log[f], from) == {}
    ensures it <= |s| && (it < |s| ==> log[f].offset + |log[f].data| <= log[s[it]].offset)
    ensures MarkedBy(ios, ios', log, f, Hits(log, s, log[f], it))
  {
    hide ShapeInv, SetInv, MarkedBy, Hits, MarkNext;
    MarkStart(ios, log, front, f, s, maxSize, from);
    var w := ios[f].w;
    it := from;
    ios' := ios[f := ios[f].(nOverlapped := 0)];
    while it < |s| && ios[s[it]].w.offset < w.offset + |w.data|
      decreases |s| - it
      invariant it <= |s| && |ios'| == |ios| && MarkedBy(ios, ios', log, f, Hits(log, s, log[f], it))
      invariant it < |s| ==> s[it] < |ios| && ios[s[it]].w == log[s[it]]
    {
      MarkAdvance(ios, ios', log, front, f, s, maxSize, it);
      ios' := MarkNext(ios', f, s[it]);
      InSet(ios, log, front, f, s, maxSize, it + 1);
      it := it + 1;
    }
  }

  lemma {:induction false} InSet(ios: seq<Io>, log: seq<Write>, front: nat, f: nat, s: seq<nat>, maxSize: nat, q: nat)
    requires ShapeInv(ios, log, front, f) && SetInv(log, front, f, s, maxSize)
    ensures q < |s| ==> s[q] < f <= |ios| && ios[s[q]].w == log[s[q]]
  {
  }

  lemma {:induction false} MarkStart(ios: seq<Io>, log: seq<Write>, front: nat, f: nat, s: seq<nat>, maxSize: nat,
                                     from: nat)
    requires f < |ios| && ShapeInv(ios, log, front, f) && SetInv(log, front, f, s, maxSize)
    requires from <= |s| && Hits(log, s, log[f], from) == {}
    ensures ios[f].w == log[f] && |ios| == |log| && forall q :: 0 <= q < |s| ==> s[q] < |log|
    ensures MarkedBy(ios, ios[f := ios[f].(nOverlapped := 0)], log, f, Hits(log, s, log[f], from))
    ensures from < |s| ==> s[from] < |ios| && ios[s[from]].w == log[s[from]]
  {
  }

  /** `OverlappedSerializer::add`: counts the overlapped IOs of IO f and skips the unsubmitted ones
      it rewrites. */
  method MarkOverlapped(ios: seq<Io>, s: seq<nat>, maxSize: nat, f: nat, ghost log: seq<Write>, ghost front: nat)
    returns (ios': seq<Io>)
    requires f < |ios| && ShapeInv(ios, log, front, f) && SetInv(log, front, f, s, maxSize)
    ensures Marked(ios, ios', log, front, f)
  {
    var from := LowerBound(ios, s, ScanFrom(ios[f].w, maxSize));
    HitsNoneBefore(log, front, f, s, maxSize, log[f], from);
    var it;
    ios', it := MarkScan(ios, s, from, f, log, front, maxSize);
    assert Hits(log, s, log[f], it) == Earlier(log, front, f) by {
      HitsAll(log, front, f, s, maxSize, log[f], it);
    }
    MarkDone(ios, ios', log, front, f);
  }

  /** The IOs after the hits `h` have one less to wait for. */
  ghost predicate ReleasedBy(ios: seq<Io>, ios': seq<Io>, h: set<nat>) {
    && |ios'| == |ios|
    && (forall i :: 0 <= i < |ios| ==>
          && ios'[i].w == ios[i].w && ios'[i].aioKey == ios[i].aioKey && ios'[i].state == ios[i].state
          && ios'[i].nOverlapped + (if i in h then 1 else 0) == ios[i].nOverlapped)
  }

  /** The ready set after the hits with nothing left to wait for joined it. */
  ghost predicate ReadiedBy(ios': seq<Io>, log: seq<Write>, ready: seq<nat>, ready': seq<nat>, h: set<nat>,
                            totalSize': nat) {
    && NoDup(ready') && Ordered(log, ready')
    && (forall p :: 0 <= p < |ready'| ==> ready'[p] < |log|)
    && totalSize' == SumSet(log, ready')
    && (forall i :: i in h ==> i < |ios'|)
    && (forall i :: i in ready' <==> i in ready || (i in h && ios'[i].nOverlapped == 0 && ios'[i].state == Init))
  }

  lemma {:induction false} ReleaseStep(ios: seq<Io>, cur: seq<Io>, log: seq<Write>, ready: seq<nat>,
                                       cur_ready: seq<nat>, h: set<nat>,
                    total: nat, y: nat)
    requires y < |ios| == |log| && y !in h && y !in ready && 0 < ios[y].nOverlapped
    requires ReleasedBy(ios, cur, h) && ReadiedBy(cur, log, ready, cur_ready, h, total)
    requires forall i :: 0 <= i < |cur| ==> cur[i].w == log[i]
    ensures var next := cur[y := cur[y].(nOverlapped := cur[y].nOverlapped - 1)];
            ReleasedBy(ios, next, h + {y})
            && if next[y].nOverlapped == 0 && next[y].state == Init
               then ReadiedBy(next, log, ready, Insert(next, cur_ready, y), h + {y}, total + |log[y].data|)
               else ReadiedBy(next, log, ready, cur_ready, h + {y}, total)
  {
    hide Insert, Ordered, NoDup;
    var next := cur[y := cur[y].(nOverlapped := cur[y].nOverlapped - 1)];
    if next[y].nOverlapped == 0 && next[y].state == Init {
      InsertMembers(next, cur_ready, y);
      OrderedInsert(next, log, cur_ready, y);
      InsertSize(next, log, cur_ready, y);
    }
  }

  /** One iteration of the scan of `delIoAndPushReadyIos`. */
  function ReleaseNext(ios: seq<Io>, ready: seq<nat>, total: nat, x: nat, y: nat): (seq<Io>, seq<nat>, nat)
    requires x < |ios| && y < |ios| && forall q :: 0 <= q < |ready| ==> ready[q] < |ios|
  {
    var w, v := ios[x].w, ios[y].w;
    if !IsOverlapped(w.offset, |w.data|, v.offset, |v.data|) || ios[y].nOverlapped == 0 then (ios, ready, total)
    else
      var ios' := ios[y := ios[y].(nOverlapped := ios[y].nOverlapped - 1)];
      if ios'[y].nOverlapped == 0 && ios'[y].state == Init then (ios', Insert(ios', ready, y), total + |v.data|)
      else (ios', ready, total)
  }

  ghost predicate ReleaseInv(ios: seq<Io>, cur: (seq<Io>, seq<nat>, nat), log: seq<Write>, ready: seq<nat>,
                             h: set<nat>) {
    ReleasedBy(ios, cur.0, h) && ReadiedBy(cur.0, log, ready, cur.1, h, cur.2)
  }

  lemma {:induction false} ReleaseAdvance(ios: seq<Io>, cur: (seq<Io>, seq<nat>, nat), log: seq<Write>, x: nat, hi: nat,
                       ready: seq<nat>, s: seq<nat>, maxSize: nat, it: nat)
    requires x < hi && ShapeInv(ios, log, x, hi) && SetInv(log, x + 1, hi, s, maxSize) && it < |s|
    requires CountInv(ios, log, x, hi) && ReadyInv(ios, x, hi, ready) && x !in ready
    requires ReleaseInv(ios, cur, log, ready, Hits(log, s, log[x], it))
    ensures ReleaseInv(ios, ReleaseNext(cur.0, cur.1, cur.2, x, s[it]), log, ready, Hits(log, s, log[x], it + 1))
  {
    hide ShapeInv, SetInv, CountInv, ReadyInv, ReleaseInv, ReleaseNext;
    ReleaseFacts(ios, cur, log, x, hi, ready, s, maxSize, it);
    HitsNext(log, s, log[x], it);
    if Overlaps(log[s[it]], log[x]) {
      ReleaseHit(ios, cur, log, x, ready, Hits(log, s, log[x], it), s[it]);
    } else {
      ReleaseMiss(cur, log, x, s[it]);
    }
  }

  lemma {:induction false} HitsNext(log: seq<Write>, s: seq<nat>, w: Write, n: nat)
    requires n < |s| && forall q :: 0 <= q < |s| ==> s[q] < |log|
    ensures Hits(log, s, w, n + 1) == if Overlaps(log[s[n]], w) then Hits(log, s, w, n) + {s[n]} else Hits(log, s, w, n)
  {
  }

  lemma {:induction false} ReleaseHit(ios: seq<Io>, cur: (seq<Io>, seq<nat>, nat), log: seq<Write>, x: nat,
                                      ready: seq<nat>, h: set<nat>, y: nat)
    requires x < |ios| == |log| == |cur.0| && y < |ios| && y !in h && y !in ready && 0 < ios[y].nOverlapped
    requires |log[x].data| < TWO32 && |log[y].data| < TWO32 && Overlaps(log[y], log[x]) && 0 < cur.0[y].nOverlapped
    requires forall i :: 0 <= i < |cur.0| ==> cur.0[i].w == log[i]
    requires forall q :: 0 <= q < |cur.1| ==> cur.1[q] < |log|
    requires ReleaseInv(ios, cur, log, ready, h)
    ensures ReleaseInv(ios, ReleaseNext(cur.0, cur.1, cur.2, x, y), log, ready, h + {y})
  {
    hide ReleasedBy, ReadiedBy, Insert;
    TestsAgree(log[x], log[y]);
    ReleaseStep(ios, cur.0, log, ready, cur.1, h, cur.2, y);
    hide IsOverlapped, Overlaps;
  }

  lemma {:induction false} ReleaseMiss(cur: (seq<Io>, seq<nat>, nat), log: seq<Write>, x: nat, y: nat)
    requires x < |log| == |cur.0| && y < |log| && cur.0[x].w == log[x] && cur.0[y].w == log[y]
    requires forall q :: 0 <= q < |cur.1| ==> cur.1[q] < |log|
    requires |log[x].data| < TWO32 && |log[y].data| < TWO32 && !Overlaps(log[y], log[x])
    ensures ReleaseNext(cur.0, cur.1, cur.2, x, y) == cur
  {
    TestsAgree(log[x], log[y]);
  }

  lemma {:induction false} ReleaseFacts(ios: seq<Io>, cur: (seq<Io>, seq<nat>, nat), log: seq<Write>, x: nat, hi: nat,
                     ready: seq<nat>, s: seq<nat>, maxSize: nat, it: nat)
    requires x < hi && ShapeInv(ios, log, x, hi) && SetInv(log, x + 1, hi, s, maxSize) && it < |s|
    requires CountInv(ios, log, x, hi) && ReadyInv(ios, x, hi, ready) && x !in ready
    requires ReleaseInv(ios, cur, log, ready, Hits(log, s, log[x], it))
    ensures x < |ios| == |log| == |cur.0| && s[it] < |ios| && s[it] !in Hits(log, s, log[x], it)
    ensures |log[x].data| < TWO32 && |log[s[it]].data| < TWO32 && forall q :: 0 <= q < |s| ==> s[q] < |log|
    ensures (forall i :: 0 <= i < |cur.0| ==> cur.0[i].w == log[i]) && forall q :: 0 <= q < |cur.1| ==> cur.1[q] < |log|
    ensures Overlaps(log[s[it]], log[x]) ==> 0 < ios[s[it]].nOverlapped && s[it] !in ready
    ensures Overlaps(log[s[it]], log[x]) ==> 0 < cur.0[s[it]].nOverlapped
  {
    var y := s[it];
    HitsNew(log, x + 1, hi, s, maxSize, log[x], it);
    if Overlaps(log[y], log[x]) { assert x in Earlier(log, x, y); }
  }

  lemma {:induction false} ReleaseDone(ios: seq<Io>, ios': seq<Io>, log: seq<Write>, x: nat, hi: nat)
    requires x < hi && ShapeInv(ios, log, x, hi)
    requires ReleasedBy(ios, ios', Waiters(log, x, hi))
    ensures Released(ios, ios', log, x, hi)
  {
  }

  /** The loop of `forEachOverlapped` under `delIoAndPushReadyIos`. */
  method ReleaseScan(ios: seq<Io>, s: seq<nat>, from: nat, x: nat, ready: seq<nat>, totalSize: nat,
                     ghost log: seq<Write>, ghost hi: nat, ghost maxSize: nat)
    returns (ios': seq<Io>, ready': seq<nat>, totalSize': nat, it: nat)
    requires x < hi && ShapeInv(ios, log, x, hi) && SetInv(log, x + 1, hi, s, maxSize)
    requires CountInv(ios, log, x, hi) && ReadyInv(ios, x, hi, ready) && x !in ready && Ordered(log, ready)
    requires from <= |s| && Hits(log, s, log[x], from) == {} && totalSize == SumSet(log, ready)
    ensures it <= |s| && (it < |s| ==> log[x].offset + |log[x].data| <= log[s[it]].offset)
    ensures ReleaseInv(ios, (ios', ready', totalSize'), log, ready, Hits(log, s, log[x], it))
  {
    var w := ios[x].w;
    var cur := (ios, ready, totalSize);
    it := from;
    while it < |s| && cur.0[s[it]].w.offset < w.offset + |w.data|
      decreases |s| - it
      invariant it <= |s| && ReleaseInv(ios, cur, log, ready, Hits(log, s, w, it))
    {
      ReleaseAdvance(ios, cur, log, x, hi, ready, s, maxSize, it);
      cur := ReleaseNext(cur.0, cur.1, cur.2, x, s[it]);
      assert ReleaseInv(ios, cur, log, ready, Hits(log, s, w, it + 1));
      it := it + 1;
    }
    ios', ready', totalSize' := cur.0, cur.1, cur.2;
  }

  /** `OverlappedSerializer::delIoAndPushReadyIos`, after the erase: the IOs waiting for x have one
      less to wait for, and those with none left become ready. */
  method ReleaseOverlapped(ios: seq<Io>, s: seq<nat>, maxSize: nat, x: nat, ready: seq<nat>, totalSize: nat,
                           ghost log: seq<Write>, ghost hi: nat)
    returns (ios': seq<Io>, ready': seq<nat>, totalSize': nat)
    requires x < hi && ShapeInv(ios, log, x, hi) && SetInv(log, x + 1, hi, s, maxSize)
    requires CountInv(ios, log, x, hi) && ReadyInv(ios, x, hi, ready) && x !in ready
    requires totalSize == SumSet(log, ready) && Ordered(log, ready)
    ensures Released(ios, ios', log, x, hi)
    ensures ReadiedBy(ios', log, ready, ready', Waiters(log, x, hi), totalSize')
  {
    var from := LowerBound(ios, s, ScanFrom(ios[x].w, maxSize));
    HitsNoneBefore(log, x + 1, hi, s, maxSize, log[x], from);
    var it;
    ios', ready', totalSize', it := ReleaseScan(ios, s, from, x, ready, totalSize, log, hi, maxSize);
    HitsAll(log, x + 1, hi, s, maxSize, log[x], it);
    ReleaseDone(ios, ios', log, x, hi);
  }

  /** `OverlappedSerializer::erase`: the iterator is never advanced, yet the loop ends because its first
      element is the one to erase. */
  method EraseOldest(ios: seq<Io>, s: seq<nat>, x: nat, ghost log: seq<Write>, ghost hi: nat, ghost maxSize: nat)
    returns (s': seq<nat>)
    requires x < hi && ShapeInv(ios, log, x, hi) && SetInv(log, x, hi, s, maxSize)
    ensures SetInv(log, x + 1, hi, s', if s' == [] then 0 else maxSize)
  {
    var i, e := LowerBound(ios, s, ios[x].w.offset), UpperBound(ios, s, ios[x].w.offset);
    OldestIsFirstOfEqualRange(log, x, hi, s, maxSize, i);
    s' := s;
    var erased := false;
    while i != e && !erased
      invariant i < |s| && s[i] == x && i != e
      invariant erased ==> SetInv(log, x + 1, hi, s', if s' == [] then 0 else maxSize)
      decreases !erased
    {
      if s[i] == x {
        DelSet(log, x, hi, s, maxSize, i);
        s', erased := Without(s, i), true;
      }
    }
  }
}
