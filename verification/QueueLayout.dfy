/** The records of a queue file as a sequence of byte strings, and how single writes change them. */
module QueueLayout {
  import opened BlockWrites
  import opened QueueBytes

  const REC: nat := 16            // size of a record header
  const HDR: nat := 56            // two file headers

  /** A `QueueRecordHeader` in front of data x. */
  function RecHeader(x: seq<byte>, toPrev: word, salt: word): (s: seq<byte>)
    requires |x| < 0x1_0000_0000
    ensures |s| == REC
  {
    Le32(PREAMBLE) + Le32(Checksum(x, salt)) + Le32(|x|) + Le32(toPrev)
  }

  /** Data that fits: the total size of its record is a 32-bit number. */
  predicate Fits(x: seq<byte>) {
    REC + |x| < 0x1_0000_0000
  }

  ghost predicate AllFit(items: seq<seq<byte>>) {
    forall i :: 0 <= i < |items| ==> Fits(items[i])
  }

  /** `toPrev` of the record (or end stub) that follows the items, when the one of the first is p. */
  function Last(items: seq<seq<byte>>, p: word): word
    requires items != [] ==> Fits(items[|items| - 1])
  {
    if items == [] then p else REC + |items[|items| - 1]|
  }

  /** The records of the items, without the end stub. */
  function Body(items: seq<seq<byte>>, p: word, salt: word): seq<byte>
    requires AllFit(items)
  {
    if items == [] then []
    else RecHeader(items[0], p, salt) + items[0] + Body(items[1..], REC + |items[0]|, salt)
  }

  lemma {:induction false} BodyAppend(items: seq<seq<byte>>, x: seq<byte>, p: word, salt: word)
    requires AllFit(items) && Fits(x)
    ensures AllFit(items + [x])
    ensures Body(items + [x], p, salt) == Body(items, p, salt) + RecHeader(x, Last(items, p), salt) + x
  {
    hide RecHeader;
    if items == [] {
      assert (items + [x])[1..] == [];
    } else {
      var y, tail, p1 := items[0], items[1..], REC + |items[0]|;
      BodyAppend(tail, x, p1, salt);
      assert (items + [x])[0] == y && (items + [x])[1..] == tail + [x];
      assert Last(tail, p1) == Last(items, p);
      Assoc(RecHeader(y, p, salt) + y, Body(tail, p1, salt), RecHeader(x, Last(items, p), salt), x);
    }
  }

  lemma {:induction false} Assoc(a: seq<byte>, b: seq<byte>, c: seq<byte>, d: seq<byte>)
    ensures a + (b + c + d) == a + b + c + d
  {
  }

  /** Where item k starts, from the first record on. */
  function Off(items: seq<seq<byte>>, k: nat): nat
    requires k <= |items|
  {
    if k == 0 then 0 else Off(items, k - 1) + REC + |items[k - 1]|
  }

  lemma {:induction false} OffOfPrefix(items: seq<seq<byte>>, x: seq<byte>, k: nat)
    requires k <= |items|
    ensures Off(items + [x], k) == Off(items, k)
  {
    if k > 0 { OffOfPrefix(items, x, k - 1); }
  }

  lemma {:induction false} LastAppend(items: seq<seq<byte>>, x: seq<byte>, p: word)
    requires Fits(x)
    ensures Last(items + [x], p) == REC + |x|
  {
  }

  lemma {:induction false} LastNone(p: word)
    ensures Last([], p) == p
  {
  }

  /** The body cut before item k. */
  lemma {:induction false} BodySplit(items: seq<seq<byte>>, p: word, salt: word, k: nat)
    requires AllFit(items) && k <= |items|
    ensures AllFit(items[..k]) && AllFit(items[k..])
    ensures |Body(items[..k], p, salt)| == Off(items, k)
    ensures Body(items, p, salt) == Body(items[..k], p, salt) + Body(items[k..], Last(items[..k], p), salt)
  {
    hide RecHeader, Last;
    if k == 0 {
      assert items[0..] == items && items[..0] == [];
      assert Last([], p) == p by { LastNone(p); }
    } else {
      BodySplit(items, p, salt, k - 1);
      var x := items[k - 1];
      assert items[..k] == items[..k - 1] + [x];
      assert items[k - 1..][0] == x && items[k - 1..][1..] == items[k..];
      BodyAppend(items[..k - 1], x, p, salt);
      var q := Last(items[..k - 1], p);
      assert Body(items[k - 1..], q, salt) == RecHeader(x, q, salt) + x + Body(items[k..], REC + |x|, salt);
      assert Last(items[..k], p) == REC + |x| by { LastAppend(items[..k - 1], x, p); }
      Assoc(Body(items[..k - 1], p, salt), RecHeader(x, q, salt), x, Body(items[k..], REC + |x|, salt));
    }
  }

  // ---- reading and writing parts of the file ----

  function Sub(f: seq<byte>, off: nat, n: nat): (s: seq<byte>)
    requires off + n <= |f|
    ensures |s| == n
  {
    f[off..off + n]
  }

  function Splice(f: seq<byte>, off: nat, bs: seq<byte>): (r: seq<byte>)
    requires off + |bs| <= |f|
    ensures |r| == |f|
  {
    f[..off] + bs + f[off + |bs|..]
  }

  lemma {:induction false} SpliceRead(f: seq<byte>, off: nat, bs: seq<byte>)
    requires off + |bs| <= |f|
    ensures Sub(Splice(f, off, bs), off, |bs|) == bs
  {
  }

  lemma {:induction false} SpliceFrame(f: seq<byte>, off: nat, bs: seq<byte>, a: nat, n: nat)
    requires off + |bs| <= |f| && a + n <= |f| && (a + n <= off || off + |bs| <= a)
    ensures Sub(Splice(f, off, bs), a, n) == Sub(f, a, n)
  {
    var r := Splice(f, off, bs);
    forall i | a <= i < a + n ensures r[i] == f[i] {}
  }

  lemma {:induction false} SubConcat(f: seq<byte>, off: nat, n: nat, m: nat)
    requires off + n + m <= |f|
    ensures Sub(f, off, n + m) == Sub(f, off, n) + Sub(f, off + n, m)
  {
    assert f[off..off + (n + m)] == f[off..off + n] + f[off + n..off + n + m];
  }

  lemma {:induction false} SubSub(f: seq<byte>, off: nat, n: nat, a: nat, m: nat)
    requires off + n <= |f| && a + m <= n
    ensures Sub(Sub(f, off, n), a, m) == Sub(f, off + a, m)
  {
    var s := f[off..off + n];
    var u, v := s[a..a + m], f[off + a..off + a + m];
    forall i | 0 <= i < m ensures u[i] == v[i] {
      assert u[i] == s[a + i] == f[off + a + i];
    }
  }

  lemma {:induction false} Cut(a: seq<byte>, b: seq<byte>, x: seq<byte>, c: seq<byte>)
    ensures var s := a + (b + x + c);
            s[|a|..|a| + |b|] == b && s[|a| + |b|..|a| + |b| + |x|] == x
  {
  }

  function Resized(f: seq<byte>, n: nat): (r: seq<byte>)
    ensures |r| == n
  {
    if n <= |f| then f[..n] else f + seq(n - |f|, i => 0)
  }

  lemma {:induction false} ResizedSub(f: seq<byte>, n: nat, a: nat, m: nat)
    requires a + m <= |f| && a + m <= n
    ensures Sub(Resized(f, n), a, m) == Sub(f, a, m)
  {
  }

  // ---- a file holds a queue ----

  /** The live region of header h holds the items; p is the `toPrev` of the first record, which nobody reads. */
  ghost predicate Holds(f: seq<byte>, h: Header, items: seq<seq<byte>>, p: word) {
    && AllFit(items) && h.preamble == PREAMBLE
    && h.beginOffset + |Body(items, p, h.salt)| == h.endOffset && HDR + h.endOffset + REC <= |f|
    && Sub(f, HDR + h.beginOffset, h.endOffset - h.beginOffset) == Body(items, p, h.salt)
    && ToPrev(f, h.endOffset) == Last(items, p)
  }

  /** Fields of the record at an offset. */
  function DataSize(f: seq<byte>, off: nat): word
    requires HDR + off + REC <= |f|
  {
    FromLe32(Sub(f, HDR + off + 8, 4))
  }

  function ToPrev(f: seq<byte>, off: nat): word
    requires HDR + off + REC <= |f|
  {
    FromLe32(Sub(f, HDR + off + 12, 4))
  }

  /** `verifyRec` without its exception. */
  predicate RecordOk(f: seq<byte>, off: nat, salt: word)
    requires HDR + off + REC <= |f|
  {
    && FromLe32(Sub(f, HDR + off, 4)) == PREAMBLE
    && HDR + off + REC + DataSize(f, off) <= |f|
    && FromLe32(Sub(f, HDR + off + 4, 4)) == Checksum(Sub(f, HDR + off + REC, DataSize(f, off)), salt)
  }

  /** The four fields of a record header. */
  lemma {:induction false} RecHeaderFields(x: seq<byte>, toPrev: word, salt: word)
    requires |x| < 0x1_0000_0000
    ensures var s := RecHeader(x, toPrev, salt);
            && Sub(s, 0, 4) == Le32(PREAMBLE) && Sub(s, 4, 4) == Le32(Checksum(x, salt))
            && Sub(s, 8, 4) == Le32(|x|) && Sub(s, 12, 4) == Le32(toPrev)
  {
    hide Le32, Checksum;
    var s := RecHeader(x, toPrev, salt);
    assert s[0..4] == Le32(PREAMBLE) && s[4..8] == Le32(Checksum(x, salt));
    assert s[8..12] == Le32(|x|) && s[12..16] == Le32(toPrev);
  }

  /** Reading the fields of a record back. */
  lemma {:induction false} ReadFields(f: seq<byte>, off: nat, x: seq<byte>, q: word, salt: word)
    requires |x| < 0x1_0000_0000 && HDR + off + REC + |x| <= |f|
    requires Sub(f, HDR + off, REC) == RecHeader(x, q, salt) && Sub(f, HDR + off + REC, |x|) == x
    ensures DataSize(f, off) == |x| && ToPrev(f, off) == q && RecordOk(f, off, salt)
  {
    hide RecHeader, Sub, Checksum, Le32, FromLe32;
    RecHeaderFields(x, q, salt);
    SubSub(f, HDR + off, REC, 0, 4);
    SubSub(f, HDR + off, REC, 4, 4);
    SubSub(f, HDR + off, REC, 8, 4);
    SubSub(f, HDR + off, REC, 12, 4);
    Le32RoundTrip(PREAMBLE);
    Le32RoundTrip(Checksum(x, salt));
    Le32RoundTrip(|x|);
    Le32RoundTrip(q);
  }

  /** Record k: its header and data, where the layout says. */
  lemma {:induction false} RecordAt(f: seq<byte>, h: Header, items: seq<seq<byte>>, p: word, k: nat, off: nat)
    requires Holds(f, h, items, p) && k < |items| && off == h.beginOffset + Off(items, k)
    ensures HDR + off + REC + |items[k]| <= |f| && Fits(items[k])
    ensures Sub(f, HDR + off, REC) == RecHeader(items[k], Last(items[..k], p), h.salt)
    ensures Sub(f, HDR + off + REC, |items[k]|) == items[k]
  {
    hide RecHeader, Sub, Checksum, Last, Body, Off, FromLe32;
    var before, rest := BodyAround(items, p, h.salt, k);
    Locate(f, HDR + h.beginOffset, before, RecHeader(items[k], Last(items[..k], p), h.salt), items[k], rest);
    assert HDR + off == HDR + h.beginOffset + |before|;
  }

  lemma {:induction false} Locate(f: seq<byte>, at: nat, before: seq<byte>, rec: seq<byte>, x: seq<byte>,
                                  rest: seq<byte>)
    requires var body := before + (rec + x + rest); at + |body| <= |f| && Sub(f, at, |body|) == body
    ensures Sub(f, at + |before|, |rec|) == rec && Sub(f, at + |before| + |rec|, |x|) == x
  {
    hide Sub;
    var body := before + (rec + x + rest);
    Cut(before, rec, x, rest);
    SubIs(f, at, body, |before|, |rec|);
    SubIs(f, at, body, |before| + |rec|, |x|);
    assert at + (|before| + |rec|) == at + |before| + |rec|;
  }

  lemma {:induction false} BodyAround(items: seq<seq<byte>>, p: word, salt: word, k: nat) returns (before: seq<byte>,
                                      rest: seq<byte>)
    requires AllFit(items) && k < |items|
    ensures Fits(items[k]) && |before| == Off(items, k)
    ensures Body(items, p, salt) == before + (RecHeader(items[k], Last(items[..k], p), salt) + items[k] + rest)
  {
    hide RecHeader, Last, Off;
    BodySplit(items, p, salt, k);
    assert items[k..][0] == items[k] && Fits(items[k]);
    before, rest := Body(items[..k], p, salt), Body(items[k..][1..], REC + |items[k]|, salt);
  }

  lemma {:induction false} SubIs(f: seq<byte>, off: nat, s: seq<byte>, a: nat, n: nat)
    requires off + |s| <= |f| && Sub(f, off, |s|) == s && a + n <= |s|
    ensures Sub(f, off + a, n) == s[a..a + n]
  {
    SubSub(f, off, |s|, a, n);
  }

  /** What a reader gets at record k, and that it passes verification. */
  lemma {:induction false} ReadRecord(f: seq<byte>, h: Header, items: seq<seq<byte>>, p: word, k: nat, off: nat)
    requires Holds(f, h, items, p) && k < |items| && off == h.beginOffset + Off(items, k)
    ensures HDR + off + REC + |items[k]| <= |f| && Fits(items[k])
    ensures DataSize(f, off) == |items[k]| && Sub(f, HDR + off + REC, |items[k]|) == items[k]
    ensures ToPrev(f, off) == Last(items[..k], p) && RecordOk(f, off, h.salt)
  {
    hide RecHeader, Sub, Checksum, Holds, RecordOk, DataSize, ToPrev, Off;
    RecordAt(f, h, items, p, k, off);
    hide Last;
    ReadFields(f, off, items[k], Last(items[..k], p), h.salt);
  }

  // ---- what the operations do to the layout ----

  /** Bytes copied to another place hold the same queue there. */
  lemma {:induction false} Relocated(f: seq<byte>, f': seq<byte>, h: Header, items: seq<seq<byte>>, p: word, dst: nat)
    requires Holds(f, h, items, p)
    requires var len := h.endOffset - h.beginOffset + REC;
             HDR + dst + len <= |f'| && Sub(f', HDR + dst, len) == Sub(f, HDR + h.beginOffset, len)
    ensures Holds(f', h.(beginOffset := dst, endOffset := dst + (h.endOffset - h.beginOffset)), items, p)
  {
    hide Sub, Body, FromLe32;
    var n := h.endOffset - h.beginOffset;
    var src, to := HDR + h.beginOffset, HDR + dst;
    SubSub(f, src, n + REC, 0, n);
    SubSub(f', to, n + REC, 0, n);
    SubSub(f, src, n + REC, n + 12, 4);
    SubSub(f', to, n + REC, n + 12, 4);
    assert src + (n + 12) == HDR + h.endOffset + 12 && to + (n + 12) == HDR + (dst + n) + 12;
  }

  /** Writes elsewhere do not matter. */
  lemma {:induction false} Untouched(f: seq<byte>, f': seq<byte>, h: Header, items: seq<seq<byte>>, p: word)
    requires Holds(f, h, items, p)
    requires var len := h.endOffset - h.beginOffset + REC;
             HDR + h.beginOffset + len <= |f'| && Sub(f', HDR + h.beginOffset, len) == Sub(f, HDR + h.beginOffset, len)
    ensures Holds(f', h, items, p)
  {
    hide Holds;
    assert h.beginOffset + (h.endOffset - h.beginOffset) == h.endOffset;
    assert h.(beginOffset := h.beginOffset, endOffset := h.endOffset) == h;
    Relocated(f, f', h, items, p, h.beginOffset);
  }

  lemma {:induction false} DropFirst(f: seq<byte>, h: Header, items: seq<seq<byte>>, p: word)
    requires Holds(f, h, items, p) && items != []
    ensures Holds(f, h.(beginOffset := h.beginOffset + REC + |items[0]|), items[1..], REC + |items[0]|)
  {
    hide Sub, RecHeader, FromLe32;
    var x := items[0];
    var rest := Body(items[1..], REC + |x|, h.salt);
    var n := h.endOffset - h.beginOffset;
    SubSub(f, HDR + h.beginOffset, n, REC + |x|, n - REC - |x|);
    Tail(RecHeader(x, p, h.salt) + x, rest);
    SubAll(Body(items, p, h.salt), REC + |x|);
    assert HDR + h.beginOffset + (REC + |x|) == HDR + (h.beginOffset + REC + |x|);
    assert Last(items[1..], REC + |x|) == Last(items, p);
  }

  lemma {:induction false} DropLast(f: seq<byte>, h: Header, items: seq<seq<byte>>, p: word)
    requires Holds(f, h, items, p) && items != []
    ensures h.beginOffset + ToPrev(f, h.endOffset) <= h.endOffset
    ensures Holds(f, h.(endOffset := h.endOffset - ToPrev(f, h.endOffset)), items[..|items| - 1], p)
  {
    hide RecHeader, Sub, FromLe32, Checksum;
    var k := |items| - 1;
    var front, x := items[..k], items[k];
    assert items == front + [x] && AllFit(front) && Fits(x);
    BodyAppend(front, x, p, h.salt);
    var body := Body(front, p, h.salt);
    OffIsLength(items, p, h.salt, k);
    ReadRecord(f, h, items, p, k, h.beginOffset + |body|);
    SubSub(f, HDR + h.beginOffset, h.endOffset - h.beginOffset, 0, |body|);
    var rec := RecHeader(x, Last(front, p), h.salt);
    assert body + rec + x == body + (rec + x);
    Head(body, rec + x);
    assert ToPrev(f, h.endOffset) == REC + |x|;
  }

  lemma {:induction false} OffIsLength(items: seq<seq<byte>>, p: word, salt: word, k: nat)
    requires AllFit(items) && k <= |items|
    ensures AllFit(items[..k]) && |Body(items[..k], p, salt)| == Off(items, k)
  {
    BodySplit(items, p, salt, k);
  }

  lemma {:induction false} Head(a: seq<byte>, b: seq<byte>)
    ensures Sub(a + b, 0, |a|) == a
  {
  }

  // ---- pushBack ----

  /** `init` of a record header, with its `toPrev`. */
  function Stub(toPrev: word): (s: seq<byte>)
    ensures |s| == REC
  {
    Le32(PREAMBLE) + Le32(0) + Le32(0) + Le32(toPrev)
  }

  /** The writes of `pushBack`: header, end stub, data. */
  function PushedBack(f: seq<byte>, end: nat, x: seq<byte>, salt: word): seq<byte>
    requires HDR + end + REC <= |f| && Fits(x)
  {
    var f1 := Resized(f, HDR + end + REC + |x| + REC);
    var f2 := Splice(f1, HDR + end, RecHeader(x, ToPrev(f, end), salt));
    var f3 := Splice(f2, HDR + end + REC + |x|, Stub(REC + |x|));
    Splice(f3, HDR + end + REC, x)
  }

  lemma {:induction false} StubToPrev(f: seq<byte>, end: nat, t: word)
    requires HDR + end + REC <= |f| && Sub(f, HDR + end, REC) == Stub(t)
    ensures ToPrev(f, end) == t
  {
    var s := Stub(t);
    assert s[12..16] == Le32(t) by { hide Le32; }
    SubSub(f, HDR + end, REC, 12, 4);
    Le32RoundTrip(t);
  }

  lemma {:induction false} PushedBackReads(f: seq<byte>, begin: nat, end: nat, x: seq<byte>, salt: word)
    requires begin <= end && HDR + end + REC <= |f| && Fits(x)
    ensures var r := PushedBack(f, end, x, salt);
            && |r| == HDR + end + REC + |x| + REC
            && Sub(r, HDR + begin, end - begin) == Sub(f, HDR + begin, end - begin)
            && Sub(r, HDR + end, REC) == RecHeader(x, ToPrev(f, end), salt)
            && Sub(r, HDR + end + REC, |x|) == x
            && Sub(r, HDR + end + REC + |x|, REC) == Stub(REC + |x|)
  {
    hide Sub, Splice, Resized, RecHeader, ToPrev, Stub;
    var a, n := HDR + end, |x|;
    var rec, stub := RecHeader(x, ToPrev(f, end), salt), Stub(REC + n);
    var f1 := Resized(f, a + REC + n + REC);
    var f2 := Splice(f1, a, rec);
    var f3 := Splice(f2, a + REC + n, stub);
    ResizedSub(f, a + REC + n + REC, HDR + begin, end - begin);
    SpliceFrame(f1, a, rec, HDR + begin, end - begin);
    SpliceFrame(f2, a + REC + n, stub, HDR + begin, end - begin);
    SpliceFrame(f3, a + REC, x, HDR + begin, end - begin);
    SpliceRead(f1, a, rec);
    SpliceFrame(f2, a + REC + n, stub, a, REC);
    SpliceFrame(f3, a + REC, x, a, REC);
    SpliceRead(f2, a + REC + n, stub);
    SpliceFrame(f3, a + REC, x, a + REC + n, REC);
    SpliceRead(f3, a + REC, x);
  }

  lemma {:induction false} Join(f: seq<byte>, at: nat, a: seq<byte>, b: seq<byte>, c: seq<byte>)
    requires at + |a| + |b| + |c| <= |f|
    requires Sub(f, at, |a|) == a && Sub(f, at + |a|, |b|) == b && Sub(f, at + |a| + |b|, |c|) == c
    ensures Sub(f, at, |a + b + c|) == a + b + c
  {
    hide Sub;
    SubConcat(f, at, |a|, |b|);
    SubConcat(f, at, |a| + |b|, |c|);
    assert at + (|a| + |b|) == at + |a| + |b|;
  }

  lemma {:induction false} AppendRecord(f: seq<byte>, h: Header, items: seq<seq<byte>>, p: word, x: seq<byte>)
    requires Holds(f, h, items, p) && Fits(x)
    ensures Holds(PushedBack(f, h.endOffset, x, h.salt), h.(endOffset := h.endOffset + REC + |x|), items + [x], p)
  {
    hide Sub, RecHeader, Stub, PushedBack, FromLe32, Body;
    var end, r := h.endOffset, PushedBack(f, h.endOffset, x, h.salt);
    var body := Body(items, p, h.salt);
    PushedBackReads(f, h.beginOffset, end, x, h.salt);
    BodyAppend(items, x, p, h.salt);
    assert HDR + h.beginOffset + |body| == HDR + end;
    Join(r, HDR + h.beginOffset, body, RecHeader(x, Last(items, p), h.salt), x);
    assert HDR + (end + REC + |x|) == HDR + end + REC + |x|;
    StubToPrev(r, end + REC + |x|, REC + |x|);
  }

  // ---- pushFront ----

  /** The first record gets another `toPrev`. */
  lemma {:induction false} PatchToPrev(f: seq<byte>, h: Header, items: seq<seq<byte>>, p: word, q: word)
    requires Holds(f, h, items, p)
    ensures Holds(Splice(f, HDR + h.beginOffset + 12, Le32(q)), h, items, q)
  {
    hide Sub, Splice, RecHeader, FromLe32, Le32, Checksum, Body;
    var at := HDR + h.beginOffset;
    var r := Splice(f, at + 12, Le32(q));
    SpliceRead(f, at + 12, Le32(q));
    Le32RoundTrip(q);
    if items == [] {
      EmptyBody(p, h.salt);
      EmptyBody(q, h.salt);
    } else {
      var x := items[0];
      PatchedBody(f, at, items, p, q, h.salt);
      SpliceFrame(f, at + 12, Le32(q), HDR + h.endOffset + 12, 4);
    }
  }

  lemma {:induction false} EmptyBody(p: word, salt: word)
    ensures Body([], p, salt) == []
  {
  }

  lemma {:induction false} PatchedBody(f: seq<byte>, at: nat, items: seq<seq<byte>>, p: word, q: word, salt: word)
    requires AllFit(items) && items != []
    requires var body := Body(items, p, salt); at + |body| <= |f| && Sub(f, at, |body|) == body
    ensures |Body(items, p, salt)| == |Body(items, q, salt)| >= REC
    ensures var body := Body(items, q, salt); Sub(Splice(f, at + 12, Le32(q)), at, |body|) == body
  {
    hide Sub, Splice, Le32, Checksum;
    var x := items[0];
    var head := Le32(PREAMBLE) + Le32(Checksum(x, salt)) + Le32(|x|);
    var rest := x + Body(items[1..], REC + |x|, salt);
    var r := Splice(f, at + 12, Le32(q));
    assert Body(items, p, salt) == head + (Le32(p) + rest + []);
    assert Body(items, q, salt) == head + Le32(q) + rest;
    Locate(f, at, head, Le32(p), rest, []);
    assert Sub(f, at, 12) == head by {
      SubSub(f, at, |Body(items, p, salt)|, 0, 12);
      Head(head, Le32(p) + rest + []);
    }
    SpliceFrame(f, at + 12, Le32(q), at, 12);
    SpliceRead(f, at + 12, Le32(q));
    SpliceFrame(f, at + 12, Le32(q), at + 16, |rest|);
    Join(r, at, head, Le32(q), rest);
  }

  /** The writes of `pushFront`: header and data of the new record, `toPrev` of the old first one. */
  function PushedFront(f: seq<byte>, begin: nat, x: seq<byte>, salt: word): seq<byte>
    requires HDR + begin + REC <= |f| && Fits(x) && REC + |x| <= begin
  {
    var at := HDR + begin - REC - |x|;
    Splice(Splice(Splice(f, at, RecHeader(x, 0, salt)), at + REC, x), HDR + begin + 12, Le32(REC + |x|))
  }

  lemma {:induction false} PrependRecord(f: seq<byte>, h: Header, items: seq<seq<byte>>, p: word, x: seq<byte>)
    requires Holds(f, h, items, p) && Fits(x) && REC + |x| <= h.beginOffset
    ensures AllFit([x] + items)
    ensures Holds(PushedFront(f, h.beginOffset, x, h.salt), h.(beginOffset := h.beginOffset - REC - |x|), [x] + items,
        0)
  {
    hide Sub, Splice, RecHeader, FromLe32, Le32, Checksum, Body;
    var total := REC + |x|;
    var at := HDR + h.beginOffset - REC - |x|;
    var rec := RecHeader(x, 0, h.salt);
    var f1 := Splice(f, at, rec);
    var f2 := Splice(f1, at + REC, x);
    var r := Splice(f2, HDR + h.beginOffset + 12, Le32(total));
    var len := h.endOffset - h.beginOffset + REC;
    SpliceFrame(f, at, rec, HDR + h.beginOffset, len);
    SpliceFrame(f1, at + REC, x, HDR + h.beginOffset, len);
    Untouched(f, f2, h, items, p);
    PatchToPrev(f2, h, items, p, total);
    SpliceRead(f, at, rec);
    SpliceFrame(f1, at + REC, x, at, REC);
    SpliceFrame(f2, HDR + h.beginOffset + 12, Le32(total), at, REC);
    SpliceRead(f1, at + REC, x);
    SpliceFrame(f2, HDR + h.beginOffset + 12, Le32(total), at + REC, |x|);
    JoinFirst(r, h, items, x, at);
  }

  lemma {:induction false} JoinFirst(r: seq<byte>, h: Header, items: seq<seq<byte>>, x: seq<byte>, at: nat)
    requires Fits(x) && Holds(r, h, items, REC + |x|) && REC + |x| <= h.beginOffset
        && at == HDR + h.beginOffset - REC - |x|
    requires Sub(r, at, REC) == RecHeader(x, 0, h.salt) && Sub(r, at + REC, |x|) == x
    ensures AllFit([x] + items) && Holds(r, h.(beginOffset := h.beginOffset - REC - |x|), [x] + items, 0)
  {
    hide Sub, RecHeader, FromLe32, Le32, Checksum;
    var all := [x] + items;
    assert all[0] == x && all[1..] == items;
    var body := Body(items, REC + |x|, h.salt);
    Join(r, at, RecHeader(x, 0, h.salt), x, body);
    assert Last(all, 0) == Last(items, REC + |x|);
  }

  lemma {:induction false} Tail(a: seq<byte>, b: seq<byte>)
    ensures (a + b)[|a|..] == b
  {
  }

  lemma {:induction false} SubAll(s: seq<byte>, a: nat)
    requires a <= |s|
    ensures Sub(s, a, |s| - a) == s[a..]
  {
  }
}
