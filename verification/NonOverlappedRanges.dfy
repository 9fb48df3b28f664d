/** The boundary map `NonOverlappedRanges` (binsrc/writer-verifier.cpp). */
module NonOverlappedRangeMaps {
  import opened Wrappers

  datatype Flag = BEGIN | END | BOTH

  /** A half-open range. */
  datatype Range = Range(bgn: nat, end: nat)

  predicate Overlap(r: Range, s: Range) {
    r.bgn < s.end && s.bgn < r.end
  }

  // ---- the map of boundaries of a set of ranges ----

  ghost predicate Starts(held: set<Range>, p: nat) {
    exists r :: r in held && r.bgn == p
  }

  ghost predicate Stops(held: set<Range>, p: nat) {
    exists r :: r in held && r.end == p
  }

  ghost predicate Disjoint(held: set<Range>) {
    && (forall r :: r in held ==> r.bgn < r.end)
    && (forall r, s :: r in held && s in held && r != s ==> !Overlap(r, s))
  }

  /** What the map says about point p. */
  ghost predicate PointOk(m: map<nat, Flag>, held: set<Range>, p: nat) {
    && (p in m <==> Starts(held, p) || Stops(held, p))
    && (p in m ==> (m[p] == BEGIN <==> !Stops(held, p)) && (m[p] == END <==> !Starts(held, p)))
  }

  ghost predicate Represents(m: map<nat, Flag>, held: set<Range>) {
    Disjoint(held) && forall p: nat :: PointOk(m, held, p)
  }

  /** Smallest key above x, as `upper_bound` finds it. */
  ghost predicate IsUpper(m: map<nat, Flag>, x: nat, k: Option<nat>) {
    if k.None? then forall j :: j in m ==> j <= x
    else k.value in m && x < k.value && forall j :: j in m && x < j ==> k.value <= j
  }

  method UpperBound(m: map<nat, Flag>, x: nat) returns (k: Option<nat>)
    ensures IsUpper(m, x, k)
  {
    k := None;
    var todo := m.Keys;
    while todo != {}
      invariant todo <= m.Keys
      invariant if k.None? then forall j :: j in m && j !in todo ==> j <= x
                else k.value in m && x < k.value && forall j :: j in m && j !in todo && x < j ==> k.value <= j
      decreases |todo|
    {
      var j :| j in todo;
      if x < j && (k.None? || j < k.value) {
        k := Some(j);
      }
      todo := todo - {j};
    }
  }

  /** `cond1` and `cond2` together say whether a range fits between the held ones. */
  predicate Fits(m: map<nat, Flag>, bgn: nat, end: nat, k: Option<nat>) {
    && (bgn in m ==> m[bgn] == END)
    && (k.Some? ==> end <= k.value && k.value in m && m[k.value] == BEGIN)
  }

  ghost predicate Free(held: set<Range>, r: Range) {
    forall s :: s in held ==> !Overlap(r, s)
  }

  lemma {:induction false} FitsIffFree(m: map<nat, Flag>, held: set<Range>, r: Range, k: Option<nat>)
    requires Represents(m, held) && r.bgn < r.end && IsUpper(m, r.bgn, k)
    ensures Fits(m, r.bgn, r.end, k) <==> Free(held, r)
  {
    assert PointOk(m, held, r.bgn);
    if k.Some? { assert PointOk(m, held, k.value); }
    if Fits(m, r.bgn, r.end, k) {
      forall s | s in held ensures !Overlap(r, s) {
        assert Starts(held, s.bgn) && Stops(held, s.end);
        assert PointOk(m, held, s.bgn) && PointOk(m, held, s.end);
        if Overlap(r, s) { FitsLeavesNoOverlap(m, held, r, s, k); }
      }
    }
    if Free(held, r) {
      FreeFits(m, held, r, k);
    }
  }

  /** A range that fits would end before the first boundary inside it. */
  lemma {:induction false} FitsLeavesNoOverlap(m: map<nat, Flag>, held: set<Range>, r: Range, s: Range, k: Option<nat>)
    requires Represents(m, held) && r.bgn < r.end && IsUpper(m, r.bgn, k) && Fits(m, r.bgn, r.end, k)
    requires s in held
    ensures !Overlap(r, s)
  {
    assert Starts(held, s.bgn) && Stops(held, s.end);
    assert PointOk(m, held, s.bgn) && PointOk(m, held, s.end);
    if k.Some? && s.bgn < r.bgn < s.end {
      assert PointOk(m, held, k.value);
      var t :| t in held && t.bgn == k.value;
    }
  }

  lemma {:induction false} FreeFits(m: map<nat, Flag>, held: set<Range>, r: Range, k: Option<nat>)
    requires Represents(m, held) && r.bgn < r.end && IsUpper(m, r.bgn, k) && Free(held, r)
    ensures Fits(m, r.bgn, r.end, k)
  {
    assert PointOk(m, held, r.bgn);
    if k.Some? {
      assert PointOk(m, held, k.value);
      if Stops(held, k.value) {
        var s :| s in held && s.end == k.value;
        assert PointOk(m, held, s.bgn) && Starts(held, s.bgn);
      }
    }
  }

  // ---- changing one boundary ----

  /** `insertElem` */
  function Inserted(m: map<nat, Flag>, p: nat, f: Flag): map<nat, Flag> {
    if p in m then m[p := BOTH] else m[p := f]
  }

  /** `eraseElem` */
  function Erased(m: map<nat, Flag>, p: nat, f: Flag): map<nat, Flag> {
    if p in m && m[p] == BOTH then m[p := if f == BEGIN then END else BEGIN] else m - {p}
  }

  lemma {:induction false} InsertedRepresents(m: map<nat, Flag>, held: set<Range>, r: Range)
    requires Represents(m, held) && r.bgn < r.end && Free(held, r)
    ensures Represents(Inserted(Inserted(m, r.bgn, BEGIN), r.end, END), held + {r})
  {
    var held' := held + {r};
    var m' := Inserted(Inserted(m, r.bgn, BEGIN), r.end, END);
    assert Disjoint(held');
    assert !Starts(held, r.bgn) && !Stops(held, r.end);
    forall p: nat ensures PointOk(m', held', p) {
      assert PointOk(m, held, p);
      assert Starts(held', p) <==> Starts(held, p) || p == r.bgn by { SplitStarts(held, r, p); }
      assert Stops(held', p) <==> Stops(held, p) || p == r.end by { SplitStops(held, r, p); }
    }
  }

  lemma {:induction false} SplitStarts(held: set<Range>, r: Range, p: nat)
    ensures Starts(held + {r}, p) <==> Starts(held, p) || p == r.bgn
  {
    if Starts(held, p) { var s :| s in held && s.bgn == p; assert s in held + {r}; }
    assert r in held + {r};
  }

  lemma {:induction false} SplitStops(held: set<Range>, r: Range, p: nat)
    ensures Stops(held + {r}, p) <==> Stops(held, p) || p == r.end
  {
    if Stops(held, p) { var s :| s in held && s.end == p; assert s in held + {r}; }
    assert r in held + {r};
  }

  lemma {:induction false} ErasedRepresents(m: map<nat, Flag>, held: set<Range>, r: Range)
    requires Represents(m, held) && r in held
    ensures Represents(Erased(Erased(m, r.bgn, BEGIN), r.end, END), held - {r})
  {
    var held' := held - {r};
    var m' := Erased(Erased(m, r.bgn, BEGIN), r.end, END);
    assert held' + {r} == held && Disjoint(held');
    assert !Starts(held', r.bgn) && !Stops(held', r.end);
    forall p: nat ensures PointOk(m', held', p) {
      assert PointOk(m, held, p);
      SplitStarts(held', r, p);
      SplitStops(held', r, p);
    }
  }

  class NonOverlappedRanges {
    var map_: map<nat, Flag>
    ghost var held: set<Range>

    ghost predicate Valid()
      reads this
    {
      Represents(map_, held)
    }

    constructor ()
      ensures Valid() && held == {}
    {
      map_, held := map[], {};
    }

    /** `tryInsert` succeeds exactly when the range overlaps no held one. */
    method TryInsert(bgn: nat, end: nat) returns (ok: bool)
      requires Valid() && bgn < end
      modifies this
      ensures Valid() && ok == Free(old(held), Range(bgn, end))
      ensures held == if ok then old(held) + {Range(bgn, end)} else old(held)
    {
      hide Represents, Free;
      var k := UpperBound(map_, bgn);
      FitsIffFree(map_, held, Range(bgn, end), k);
      if !Fits(map_, bgn, end, k) {
        return false;
      }
      InsertedRepresents(map_, held, Range(bgn, end));
      map_ := Inserted(map_, bgn, BEGIN);
      map_ := Inserted(map_, end, END);
      held := held + {Range(bgn, end)};
      return true;
    }

    /** `erase` of a held range removes just that one. */
    method Erase(bgn: nat, end: nat)
      requires Valid() && Range(bgn, end) in held
      modifies this
      ensures Valid() && held == old(held) - {Range(bgn, end)}
    {
      hide Represents;
      ErasedRepresents(map_, held, Range(bgn, end));
      map_ := Erased(map_, bgn, BEGIN);
      map_ := Erased(map_, end, END);
      held := held - {Range(bgn, end)};
    }

    /** `verifyAll`, on any map: going through the boundaries in order, beginnings and ends alternate exactly if the map
        is the boundary map of some set of disjoint ranges. */
    method VerifyAll() returns (ok: bool)
      ensures ok <==> exists ranges :: Represents(map_, ranges)
      ensures Valid() ==> ok
    {
      hide Represents;
      var inside := false;                       // the state is BEGIN
      var k := First(map_);
      ghost var upTo: int := -1;                 // boundaries up to here were seen
      ghost var seen: set<Range> := {};          // the ranges completed so far
      assert Represents(Done(map_, -1, false), {}) by { NothingDone(map_); }
      NoneCovered(map_);
      while k.Some?
        invariant IsNext(map_, upTo, k) && (inside ==> upTo in map_ && map_[upTo] != END)
        invariant Represents(Done(map_, upTo, inside), seen)
        invariant forall ranges {:trigger Represents(map_, ranges)} ::
                    Represents(map_, ranges) ==> inside == Covered(ranges, upTo)
        decreases Later(map_, upTo)
      {
        var p := k.value;
        BoundaryOfAll(map_, upTo, p);
        if !inside {
          if map_[p] != BEGIN {
            return false;
          }
          inside := true;
          RangeOpens(map_, upTo, p);
        } else {
          if map_[p] == BEGIN {
            return false;
          }
          RangeCloses(map_, seen, upTo, p);
          seen := seen + {Range(upTo, p)};
          inside := map_[p] == BOTH;
        }
        k := UpperBound(map_, p);
        assert p in Later(map_, upTo) && p !in Later(map_, p) && Later(map_, p) <= Later(map_, upTo);
        upTo := p;
      }
      NothingLeft(map_, upTo);
      if !inside {
        AllDone(map_, upTo);
      }
      return !inside;
    }
  }

  // ---- the boundaries seen so far ----

  /** The boundaries up to x, without the beginning of a range still open at x. */
  ghost function Done(m: map<nat, Flag>, x: int, open: bool): map<nat, Flag> {
    map k | k in m && k <= x && !(open && k == x && m[k] == BEGIN) :: if open && k == x then END else m[k]
  }

  lemma {:induction false} NothingDone(m: map<nat, Flag>)
    ensures Represents(Done(m, -1, false), {})
  {
    forall p: nat ensures PointOk(Done(m, -1, false), {}, p) {}
  }

  lemma {:induction false} NoneCovered(m: map<nat, Flag>)
    ensures forall ranges {:trigger Represents(m, ranges)} :: Represents(m, ranges) ==> !Covered(ranges, -1)
  {
  }

  lemma {:induction false} BoundaryOfAll(m: map<nat, Flag>, x: int, p: nat)
    requires IsNext(m, x, Some(p))
    ensures forall ranges {:trigger Represents(m, ranges)} :: Represents(m, ranges) ==>
              (Covered(ranges, x) <==> m[p] != BEGIN) && (Covered(ranges, p) <==> m[p] != END)
  {
    hide Represents, Covered;
    forall ranges {:trigger Represents(m, ranges)} | Represents(m, ranges)
      ensures (Covered(ranges, x) <==> m[p] != BEGIN) && (Covered(ranges, p) <==> m[p] != END)
    {
      NextBoundary(m, ranges, x, p);
    }
  }

  lemma {:induction false} NothingLeft(m: map<nat, Flag>, x: int)
    requires IsNext(m, x, None)
    ensures forall ranges {:trigger Represents(m, ranges)} :: Represents(m, ranges) ==> !Covered(ranges, x)
  {
    hide Represents, Covered;
    forall ranges {:trigger Represents(m, ranges)} | Represents(m, ranges) ensures !Covered(ranges, x) {
      NothingCovered(m, ranges, x);
    }
  }

  lemma {:induction false} AllDone(m: map<nat, Flag>, x: int)
    requires IsNext(m, x, None)
    ensures Done(m, x, false) == m
  {
  }

  lemma {:induction false} RangeOpens(m: map<nat, Flag>, x: int, p: nat)
    requires IsNext(m, x, Some(p)) && m[p] == BEGIN
    ensures Done(m, p, true) == Done(m, x, false)
  {
  }

  lemma {:induction false} RangeCloses(m: map<nat, Flag>, seen: set<Range>, x: int, p: nat)
    requires IsNext(m, x, Some(p)) && x in m && m[x] != END && m[p] != BEGIN
    requires Represents(Done(m, x, true), seen)
    ensures Represents(Done(m, p, m[p] == BOTH), seen + {Range(x, p)})
  {
    var d := Done(m, x, true);
    assert Free(seen, Range(x, p)) by { SeenEnds(d, seen, x); }
    InsertedRepresents(d, seen, Range(x, p));
    assert Done(m, p, m[p] == BOTH) == Inserted(Inserted(d, x, BEGIN), p, END);
  }

  lemma {:induction false} SeenEnds(d: map<nat, Flag>, seen: set<Range>, x: nat)
    requires Represents(d, seen) && forall k :: k in d ==> k <= x
    ensures forall r :: r in seen ==> r.end <= x
  {
    forall r | r in seen ensures r.end <= x {
      assert Stops(seen, r.end) && PointOk(d, seen, r.end);
    }
  }

  /** Some held range covers the points from just after x on. */
  ghost predicate Covered(held: set<Range>, x: int) {
    exists r :: r in held && r.bgn <= x < r.end
  }

  ghost predicate IsNext(m: map<nat, Flag>, x: int, k: Option<nat>) {
    if k.None? then forall j :: j in m ==> j <= x
    else k.value in m && x < k.value && forall j :: j in m && x < j ==> k.value <= j
  }

  ghost function Later(m: map<nat, Flag>, x: int): set<nat> {
    set j | j in m && x < j
  }

  method First(m: map<nat, Flag>) returns (k: Option<nat>)
    ensures IsNext(m, -1, k)
  {
    if 0 in m {
      return Some(0);
    }
    k := UpperBound(m, 0);
  }

  /** The next boundary after x: a beginning exactly when nothing is covered, and what is covered after it. */
  lemma {:induction false} NextBoundary(m: map<nat, Flag>, held: set<Range>, x: int, p: nat)
    requires Represents(m, held) && IsNext(m, x, Some(p))
    ensures Covered(held, x) <==> m[p] != BEGIN
    ensures Covered(held, p) <==> m[p] != END
  {
    assert PointOk(m, held, p);
    forall r | r in held ensures (r.bgn <= x || p <= r.bgn) && (r.end <= x || p <= r.end) {
      assert Starts(held, r.bgn) && Stops(held, r.end);
      assert PointOk(m, held, r.bgn) && PointOk(m, held, r.end);
    }
    if Stops(held, p) {
      var r :| r in held && r.end == p;
      assert Starts(held, r.bgn) && PointOk(m, held, r.bgn);
      assert Covered(held, x);
    }
  }

  lemma {:induction false} NothingCovered(m: map<nat, Flag>, held: set<Range>, x: int)
    requires Represents(m, held) && IsNext(m, x, None)
    ensures !Covered(held, x)
  {
    forall r | r in held ensures r.end <= x {
      assert Stops(held, r.end) && PointOk(m, held, r.end);
    }
  }
}
