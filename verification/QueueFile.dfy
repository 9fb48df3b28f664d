/**
 `QueueFile` (include/queue_file.hpp): a deque of byte strings in a mapped file. `file` is what the disk holds;
 a power failure during a copy leaves arbitrary bytes in its target, and one during the update of a header
 copy leaves the old copy, the new one, or one whose checksum is wrong.
 */
module QueueFiles {
  import opened BlockWrites
  import opened QueueBytes
  import opened QueueLayout
  import opened Wrappers

  const TWO64: nat := 0x1_0000_0000_0000_0000

  /** `totalSize`, a 32-bit sum. */
  function TotalSize(dataSize: word): word {
    (REC + dataSize) % 0x1_0000_0000
  }

  /** The record size is right exactly for data of at most 2^32 - 17 bytes. */
  lemma {:induction false} TotalSizeExactIff(x: seq<byte>)
    requires |x| < 0x1_0000_0000
    ensures TotalSize(|x|) == REC + |x| <==> Fits(x)
  {
  }

  // ---- the two headers ----

  ghost predicate HeadersAre(f: seq<byte>, h: Header) {
    HDR <= |f| && Sub(f, 0, 28) == Encode(h) && Sub(f, 28, 28) == Encode(h)
  }

  /** `init`: the first valid header. */
  function ReadHeader(f: seq<byte>): Option<Header>
    requires HDR <= |f|
  {
    if IsValidHeader(Sub(f, 0, 28)) then Some(Decode(Sub(f, 0, 28)))
    else if IsValidHeader(Sub(f, 28, 28)) then Some(Decode(Sub(f, 28, 28)))
    else None
  }

  /** Opening the file finds the items. */
  ghost predicate Reopens(f: seq<byte>, items: seq<seq<byte>>) {
    HDR <= |f| && ReadHeader(f).Some? && exists p :: Holds(f, ReadHeader(f).value, items, p)
  }

  /** What a cut may leave of a queue whose header on disk was h0: a file that opens to the items, or the old
      header over untouched records. */
  ghost predicate CutSafe(f0: seq<byte>, h0: Header, f: seq<byte>, items: seq<seq<byte>>) {
    || Reopens(f, items)
    || (HDR <= |f| == |f0| && ReadHeader(f) == Some(h0) && Sub(f, HDR, |f| - HDR) == Sub(f0, HDR, |f| - HDR))
  }

  /** A header as `sync` writes it. */
  ghost predicate Sealed(h: Header) {
    h.preamble == PREAMBLE && h.beginOffset < TWO64 && h.endOffset < TWO64 && h == WithChecksum(h)
  }

  lemma {:induction false} SealedReads(h: Header)
    requires Sealed(h)
    ensures IsValidHeader(Encode(h)) && Decode(Encode(h)) == h
  {
    hide Checksum, IsValidHeader, Encode, Decode;
    UpdatedHeaderIsValid(h);
    HeaderRoundTrip(h);
  }

  /** What a cut may leave of a header copy. */
  predicate Torn(was: seq<byte>, now: seq<byte>, torn: seq<byte>)
    requires |was| == |now| == 28
  {
    |torn| == 28 && (torn == was || torn == now || !IsValidHeader(torn))
  }

  /** While the first copy is being replaced, or the second one after it, one of the two headers is read. */
  lemma {:induction false} CutHeaderReads(f: seq<byte>, h0: Header, h1: Header)
    requires Sealed(h0) && Sealed(h1) && HDR <= |f|
    requires || (Torn(Encode(h0), Encode(h1), Sub(f, 0, 28)) && Sub(f, 28, 28) == Encode(h0))
             || (Sub(f, 0, 28) == Encode(h1) && Torn(Encode(h0), Encode(h1), Sub(f, 28, 28)))
    ensures ReadHeader(f) == Some(h0) || ReadHeader(f) == Some(h1)
  {
    hide Encode, Decode, IsValidHeader;
    SealedReads(h0);
    SealedReads(h1);
  }

  /** Copy i is damaged in one word. */
  ghost predicate Damaged(f: seq<byte>, i: nat, h: Header) {
    i < 2 && HDR <= |f| && Sub(f, 28 * i, 28) != Encode(h) && exists m :: SameBut(Sub(f, 28 * i, 28), Encode(h), m)
  }

  lemma {:induction false} DamagedRefused(f: seq<byte>, i: nat, h: Header)
    requires Sealed(h) && Damaged(f, i, h)
    ensures !IsValidHeader(Sub(f, 28 * i, 28))
  {
    hide Sub, Encode, IsValidHeader, SameBut;
    var m :| SameBut(Sub(f, 28 * i, 28), Encode(h), m);
    DamagedHeaderRefused(h, Sub(f, 28 * i, 28), m);
  }

  /** With one copy damaged in one word the other one is read; with both damaged the file is refused. */
  lemma {:induction false} DamageDetected(f: seq<byte>, h: Header)
    requires Sealed(h) && HDR <= |f|
    ensures Damaged(f, 0, h) && Sub(f, 28, 28) == Encode(h) ==> ReadHeader(f) == Some(h)
    ensures Damaged(f, 1, h) && Sub(f, 0, 28) == Encode(h) ==> ReadHeader(f) == Some(h)
    ensures Damaged(f, 0, h) && Damaged(f, 1, h) ==> ReadHeader(f) == None
  {
    hide Sub, Encode, Decode, IsValidHeader, Damaged;
    SealedReads(h);
    if Damaged(f, 0, h) { DamagedRefused(f, 0, h); }
    if Damaged(f, 1, h) { DamagedRefused(f, 1, h); }
  }

  /** A header copy cut between two of its words is old, new or refused, as long as the offsets stay in their 4 GiB. */
  lemma {:induction false} CutBetweenWordsIsTorn(h0: Header, h1: Header, copy: seq<byte>)
    requires Sealed(h0) && Sealed(h1) && h0.salt == h1.salt && Mixed(Encode(h0), Encode(h1), copy)
    requires High(h0.beginOffset) == High(h1.beginOffset) && High(h0.endOffset) == High(h1.endOffset)
    ensures Torn(Encode(h0), Encode(h1), copy)
  {
    hide Encode, IsValidHeader, Mixed, ThreeChange, Partial, High;
    UpdatedHeaderIsValid(h0);
    UpdatedHeaderIsValid(h1);
    HeadersInOneSegment(h0, h1);
    MixedCopyRefused(Encode(h0), Encode(h1), copy, 1, 3, 5);
    assert |copy| == 28 by { MixedSize(Encode(h0), Encode(h1), copy); }
  }

  lemma {:induction false} MixedSize(was: seq<byte>, now: seq<byte>, s: seq<byte>)
    requires Mixed(was, now, s)
    ensures |s| == 28
  {
  }

  lemma {:induction false} HeadersRead(f: seq<byte>, h: Header)
    requires Sealed(h) && HeadersAre(f, h)
    ensures ReadHeader(f) == Some(h)
  {
    hide Encode, Decode, IsValidHeader;
    SealedReads(h);
  }

  /** A change of the checksum field alone does not matter to the records. */
  lemma {:induction false} HoldsSealed(f: seq<byte>, h: Header, items: seq<seq<byte>>, p: word)
    requires Holds(f, h, items, p)
    ensures Holds(f, WithChecksum(h), items, p)
  {
    hide Sub, Body, Checksum;
  }

  /** Writes to the records leave the headers alone. */
  lemma {:induction false} SpliceHeaders(f: seq<byte>, off: nat, bs: seq<byte>, h: Header)
    requires HDR <= off && off + |bs| <= |f| && HeadersAre(f, h)
    ensures HeadersAre(Splice(f, off, bs), h)
  {
    hide Sub, Splice, Encode;
    SpliceFrame(f, off, bs, 0, 28);
    SpliceFrame(f, off, bs, 28, 28);
  }

  lemma {:induction false} ResizeHeaders(f: seq<byte>, n: nat, h: Header)
    requires HDR <= n && HeadersAre(f, h)
    ensures HeadersAre(Resized(f, n), h)
  {
    hide Sub, Resized, Encode;
    ResizedSub(f, n, 0, 28);
    ResizedSub(f, n, 28, 28);
  }

  lemma {:induction false} PushedBackHeaders(f: seq<byte>, end: nat, x: seq<byte>, salt: word, h: Header)
    requires HDR + end + REC <= |f| && Fits(x) && HeadersAre(f, h)
    ensures HeadersAre(PushedBack(f, end, x, salt), h)
  {
    hide Splice, Resized, RecHeader, ToPrev, Stub, HeadersAre;
    var f1 := Resized(f, HDR + end + REC + |x| + REC);
    var f2 := Splice(f1, HDR + end, RecHeader(x, ToPrev(f, end), salt));
    var f3 := Splice(f2, HDR + end + REC + |x|, Stub(REC + |x|));
    ResizeHeaders(f, HDR + end + REC + |x| + REC, h);
    SpliceHeaders(f1, HDR + end, RecHeader(x, ToPrev(f, end), salt), h);
    SpliceHeaders(f2, HDR + end + REC + |x|, Stub(REC + |x|), h);
    SpliceHeaders(f3, HDR + end + REC, x, h);
  }

  lemma {:induction false} PushedFrontHeaders(f: seq<byte>, begin: nat, x: seq<byte>, salt: word, h: Header)
    requires HDR + begin + REC <= |f| && Fits(x) && REC + |x| <= begin && HeadersAre(f, h)
    ensures HeadersAre(PushedFront(f, begin, x, salt), h)
  {
    hide Splice, RecHeader, Le32, HeadersAre;
    var at := HDR + begin - REC - |x|;
    var f1 := Splice(f, at, RecHeader(x, 0, salt));
    var f2 := Splice(f1, at + REC, x);
    SpliceHeaders(f, at, RecHeader(x, 0, salt), h);
    SpliceHeaders(f1, at + REC, x, h);
    SpliceHeaders(f2, HDR + begin + 12, Le32(REC + |x|), h);
  }

  class QueueFile {
    var header: Header
    var file: seq<byte>
    var powered: bool
    var stable: bool
    ghost var items: seq<seq<byte>>
    ghost var p: word
    ghost var disk: Header       // the header of the last complete sync, in both places on disk

    ghost predicate Valid()
      reads this
    {
      powered && Holds(file, header, items, p) && header.endOffset < TWO64 && Sealed(disk) && HeadersAre(file, disk)
    }

    /** Both headers on disk are the current one. */
    ghost predicate Synced()
      reads this
    {
      header == disk && Sealed(header) && HeadersAre(file, header)
    }

    // ---- the deque ----

    method PushBack(x: seq<byte>)
      requires Valid() && Fits(x) && header.endOffset + REC + |x| < TWO64
      modifies this`file, this`header, this`items
      ensures Valid() && items == old(items) + [x]
    {
      hide Holds, PushedBack, HeadersAre, Sealed;
      HoldsSize(file, header, items, p);
      AppendRecord(file, header, items, p, x);
      PushedBackHeaders(file, header.endOffset, x, header.salt, disk);
      file := PushedBack(file, header.endOffset, x, header.salt);
      header := header.(endOffset := header.endOffset + TotalSize(|x|));
      items := items + [x];
    }

    method PopFront() returns (ok: bool)
      requires Valid()
      modifies this`header, this`items, this`p
      ensures Valid() && ok == (old(items) != [])
      ensures items == if ok then old(items)[1..] else []
    {
      hide Holds, HeadersAre, Sealed;
      HoldsSize(file, header, items, p);
      if header.beginOffset == header.endOffset {
        return false;
      }
      ReadFirst(file, header, items, p);
      DropFirst(file, header, items, p);
      hide DataSize, TotalSize;
      header := header.(beginOffset := header.beginOffset + TotalSize(DataSize(file, header.beginOffset)));
      p, items := REC + |items[0]|, items[1..];
      return true;
    }

    method PopBack() returns (ok: bool)
      requires Valid()
      modifies this`header, this`items
      ensures Valid() && ok == (old(items) != [])
      ensures items == if ok then old(items)[..|old(items)| - 1] else []
    {
      hide Holds, HeadersAre, Sealed;
      HoldsSize(file, header, items, p);
      if header.beginOffset == header.endOffset {
        return false;
      }
      DropLast(file, header, items, p);
      header := header.(endOffset := header.endOffset - ToPrev(file, header.endOffset));
      items := items[..|items| - 1];
      return true;
    }

    method Front() returns (x: Option<seq<byte>>)
      requires Valid()
      ensures x == if items == [] then None else Some(items[0])
    {
      hide Holds, HeadersAre, Sealed;
      HoldsSize(file, header, items, p);
      if header.beginOffset == header.endOffset {
        return None;
      }
      ReadRecord(file, header, items, p, 0, header.beginOffset);
      return Some(Sub(file, HDR + header.beginOffset + REC, DataSize(file, header.beginOffset)));
    }

    method Back() returns (x: Option<seq<byte>>)
      requires Valid()
      ensures x == if items == [] then None else Some(items[|items| - 1])
    {
      hide Holds, HeadersAre, Sealed;
      HoldsSize(file, header, items, p);
      if header.beginOffset == header.endOffset {
        return None;
      }
      PrevRecord(file, header, items, p, |items|, header.endOffset);
      var off := header.endOffset - ToPrev(file, header.endOffset);
      ReadRecord(file, header, items, p, |items| - 1, off);
      return Some(Sub(file, HDR + off + REC, DataSize(file, off)));
    }

    method Clear()
      requires Valid()
      modifies this`header, this`file, this`items, this`p
      ensures Valid() && items == []
    {
      HoldsSize(file, header, items, p);
      SpliceHeaders(file, HDR + header.endOffset + 12, Le32(0), disk);
      hide HeadersAre, Sealed;
      file := Splice(file, HDR + header.endOffset + 12, Le32(0));
      header := header.(beginOffset := header.endOffset);
      items, p := [], 0;
      SpliceRead(old(file), HDR + header.endOffset + 12, Le32(0));
      Le32RoundTrip(0);
    }

    /** `verifyAll`, on records that lead from one to the next as those of `chain` would, whatever bytes they hold:
        both walks visit exactly these records and it succeeds exactly if each of them passes. */
    method VerifyAll(ghost chain: seq<seq<byte>>) returns (ok: bool)
      requires Chained(file, header, chain)
      ensures ok <==> forall k :: 0 <= k < |chain| ==> PassesAt(file, header, chain, k)
      ensures Valid() && chain == items ==> ok
    {
      hide Holds, HeadersAre, Sealed, PassesAt, Chained;
      if Valid() && chain == items {
        HoldsPasses(file, header, items, p);
      }
      ok := VerifyForward(chain);
      if ok {
        ok := VerifyBackward(chain);
      }
    }

    method VerifyForward(ghost chain: seq<seq<byte>>) returns (ok: bool)
      requires Chained(file, header, chain)
      ensures ok <==> forall k :: 0 <= k < |chain| ==> PassesAt(file, header, chain, k)
    {
      hide RecordOk, Off, Chained;
      ChainSize(file, header, chain);
      OffNone(chain);
      var off := header.beginOffset;
      ghost var k := 0;
      while off < header.endOffset
        invariant 0 <= k <= |chain| && off == header.beginOffset + Off(chain, k)
        invariant forall j :: 0 <= j < k ==> PassesAt(file, header, chain, j)
        decreases |chain| - k
      {
        OffRises(chain, k, |chain|);
        ChainNext(file, header, chain, k, off);
        if !RecordOk(file, off, header.salt) {
          assert !PassesAt(file, header, chain, k);
          return false;
        }
        OffNext(chain, k);
        off := off + TotalSize(DataSize(file, off));
        k := k + 1;
      }
      OffRises(chain, k, |chain|);
      return true;
    }

    method VerifyBackward(ghost chain: seq<seq<byte>>) returns (ok: bool)
      requires Chained(file, header, chain)
      ensures ok <==> forall k :: 0 <= k < |chain| ==> PassesAt(file, header, chain, k)
    {
      hide RecordOk, Off, Chained;
      ChainSize(file, header, chain);
      OffNone(chain);
      var off := header.endOffset;
      ghost var k := |chain|;
      while true
        invariant 0 <= k <= |chain| && off == header.beginOffset + Off(chain, k)
        invariant forall j :: k < j < |chain| ==> PassesAt(file, header, chain, j)
        decreases k
      {
        OffRises(chain, k, |chain|);
        if off != header.endOffset {
          ChainNext(file, header, chain, k, off);
          if !RecordOk(file, off, header.salt) {
            assert !PassesAt(file, header, chain, k);
            return false;
          }
        }
        OffRises(chain, 0, k);
        if off == header.beginOffset {
          return true;
        }
        ChainPrev(file, header, chain, k, off);
        off := off - ToPrev(file, off);
        k := k - 1;
      }
    }

    // ---- steps that a power failure can cut ----

    method MayFail()
      modifies this`powered
      ensures powered ==> old(powered)
      ensures stable ==> powered == old(powered)
    {
      if !stable {
        if * {
          powered := false;
        }
      }
    }

    /** `memcpy` inside the file and the flush after it. */
    method Copy(off: nat, bs: seq<byte>) returns (written: seq<byte>)
      requires off + |bs| <= |file|
      modifies this`file, this`powered
      ensures |written| == |bs| && (powered ==> written == bs)
      ensures file == if old(powered) then Splice(old(file), off, written) else old(file)
      ensures (powered ==> old(powered)) && (stable ==> powered == old(powered))
    {
      written := bs;
      var was := powered;
      MayFail();
      if !powered {
        var junk := seq(|bs|, i => 0);
        assert |junk| == |bs|;
        written :| |written| == |bs|;
      }
      if was {
        file := Splice(file, off, written);
      }
    }

    /** One header copy and the flush after it. */
    method WriteHeader(i: nat)
      requires i < 2 && HDR <= |file|
      modifies this`file, this`powered
      ensures |file| == |old(file)| && (!old(powered) ==> file == old(file))
      ensures Torn(Sub(old(file), 28 * i, 28), Encode(header), Sub(file, 28 * i, 28))
      ensures powered ==> Sub(file, 28 * i, 28) == Encode(header)
      ensures Sub(file, 28 * (1 - i), 28) == Sub(old(file), 28 * (1 - i), 28)
      ensures Sub(file, HDR, |file| - HDR) == Sub(old(file), HDR, |file| - HDR)
      ensures (powered ==> old(powered)) && (stable ==> powered == old(powered))
    {
      hide Sub, Splice, Encode, IsValidHeader;
      var was := powered;
      var copy := Encode(header);
      MayFail();
      var before := Sub(file, 28 * i, 28);
      assert Torn(before, Encode(header), before);
      if !powered {
        copy :| |copy| == 28 && Torn(before, Encode(header), copy);
      }
      if was {
        SpliceRead(file, 28 * i, copy);
        SpliceFrame(file, 28 * i, copy, 28 * (1 - i), 28);
        SpliceFrame(file, 28 * i, copy, HDR, |file| - HDR);
        file := Splice(file, 28 * i, copy);
      }
    }

    /** `sync`: with both headers on disk the same, h0, before, a cut leaves a file that reads as h0 or as the
        new header. */
    method Sync()
      requires HDR <= |file| && header.preamble == PREAMBLE && header.beginOffset < TWO64 && header.endOffset < TWO64
      modifies this`file, this`powered, this`header, this`disk
      ensures header == WithChecksum(old(header)) && Sealed(header)
      ensures |file| == |old(file)| && (!old(powered) ==> file == old(file))
      ensures Sub(file, HDR, |file| - HDR) == Sub(old(file), HDR, |file| - HDR)
      ensures if powered then HeadersAre(file, header) && disk == header else disk == old(disk)
      ensures forall h0 :: old(powered) && Sealed(h0) && HeadersAre(old(file), h0) ==>
                ReadHeader(file) == Some(h0) || ReadHeader(file) == Some(header)
      ensures (powered ==> old(powered)) && (stable ==> powered == old(powered))
    {
      hide Sub, Encode, IsValidHeader, Decode, Checksum, ReadHeader, Torn;
      ghost var f0 := file;
      header := WithChecksum(header);
      assert WithChecksum(header) == header by { SealTwice(old(header)); }
      WriteHeader(0);
      ghost var f1 := file;
      WriteHeader(1);
      assert Torn(Sub(f0, 0, 28), Encode(header), Sub(f1, 0, 28));
      forall h0 | old(powered) && Sealed(h0) && HeadersAre(f0, h0)
        ensures ReadHeader(file) == Some(h0) || ReadHeader(file) == Some(header)
      {
        CutHeaderReads(file, h0, header);
      }
      if powered {
        disk := header;
      }
    }

    /** There is room at dst for the records, apart from where they are. */
    ghost predicate RoomAt(dst: nat)
      reads this
    {
      && header.beginOffset <= header.endOffset && HDR + header.endOffset + REC <= |file|
      && var len := header.endOffset - header.beginOffset + REC;
         && HDR + dst + len <= |file| && dst + len < TWO64
         && (dst + len <= header.beginOffset || header.beginOffset + len <= dst)
    }

    /** The records are copied; the headers stay. */
    method CopyLive(dst: nat)
      requires Valid() && Synced() && RoomAt(dst)
      modifies this`file, this`powered, this`header, this`disk
      ensures header == old(header) && |file| == |old(file)|
      ensures Holds(file, header, items, p) && ReadHeader(file) == Some(header)
      ensures powered ==> HeadersAre(file, header) && disk == header
      ensures powered ==> Holds(file, header.(beginOffset := dst,
          endOffset := dst + (header.endOffset - header.beginOffset)), items, p)
      ensures stable ==> powered
    {
      hide Holds, Sub, Splice, HeadersAre, Sealed, ReadHeader;
      ghost var f0, h0 := file, header;
      SealedFacts(h0);
      var live := Sub(file, HDR + header.beginOffset, header.endOffset - header.beginOffset + REC);
      ghost var bytes := Copy(HDR + dst, live);
      CopyApart(f0, h0, items, p, dst, bytes);
      HeadersRead(file, h0);
      if powered {
        CopiedHolds(f0, file, h0, items, p, dst);
      }
      ghost var f1 := file;
      Sync();
      SyncKeeps(f1, file, h0, items, p);
      if powered {
        SyncKeeps(f1, file, h0.(beginOffset := dst, endOffset := dst + (h0.endOffset - h0.beginOffset)), items, p);
      }
    }

    /** The middle of `gc` and `reserveFrontSpace`: the records are copied to a place apart, and then the headers
        changed. Wherever it is cut, opening the file finds the same items. */
    method MoveTo(dst: nat)
      requires Valid() && Synced() && RoomAt(dst)
      modifies this`file, this`powered, this`header, this`disk
      ensures powered ==> Valid() && Synced()
      ensures header.beginOffset == dst && header.endOffset == dst + old(header.endOffset - header.beginOffset)
      ensures |file| == |old(file)| && Sealed(header)
      ensures !powered ==> Reopens(file, items)
      ensures stable ==> powered
    {
      hide Holds, Sub, Splice, HeadersAre, ReadHeader, WithChecksum;
      ghost var h0 := header;
      var n := header.endOffset - header.beginOffset;
      CopyLive(dst);
      ghost var f, on := file, powered;
      header := header.(beginOffset := dst, endOffset := dst + n);
      ghost var h1 := header;
      Sync();
      SyncKeeps(f, file, h0, items, p);
      if on {
        SyncKeeps(f, file, h1, items, p);
        HoldsSealed(file, h1, items, p);
      }
      if !powered {
        ReopensAs(file, h0, header, items, p);
      }
      SealedOffsets(h1);
    }

    /** `MmappedFile::resize` */
    method Resize(n: nat)
      modifies this`file, this`powered
      ensures file == if powered then Resized(old(file), n) else old(file)
      ensures (powered ==> old(powered)) && (stable ==> powered == old(powered))
    {
      MayFail();
      if powered {
        file := Resized(file, n);
      }
    }

    /** `gc`: with enough space in front, the records move to the start and the file shrinks. */
    method Gc()
      requires Valid()
      modifies this`file, this`powered, this`header, this`disk
      ensures powered ==> Valid() && header.beginOffset <= old(header.beginOffset)
      ensures powered && old(2 * header.beginOffset >= header.endOffset + REC) ==>
                header.beginOffset == 0 && |file| == HDR + header.endOffset + 2 * REC && Synced()
      ensures !powered ==> CutSafe(old(file), old(disk), file, items)
      ensures !powered && (disk != old(disk) || old(Synced())) ==> Reopens(file, items)
      ensures stable ==> powered
    {
      hide Holds, Sub, HeadersAre, ReadHeader, Reopens, WithChecksum, Sealed;
      HoldsSize(file, header, items, p);
      var len := header.endOffset + REC - header.beginOffset;
      if header.beginOffset < len {
        return;
      }
      SyncFirst();
      if !powered {
        return;
      }
      MoveTo(0);
      if !powered {
        return;
      }
      Shrink();
    }

    /** The first `sync` of `gc` and `reserveFrontSpace`. */
    method SyncFirst()
      requires Valid()
      modifies this`file, this`powered, this`header, this`disk
      ensures header == WithChecksum(old(header)) && Sealed(header) && |file| == |old(file)|
      ensures header.beginOffset == old(header.beginOffset) && header.endOffset == old(header.endOffset)
      ensures Holds(file, header, items, p) && (powered ==> Valid() && Synced())
      ensures !powered ==> CutSafe(old(file), old(disk), file, items)
      ensures !powered && (disk != old(disk) || old(Synced())) ==> Reopens(file, items)
      ensures stable ==> powered
    {
      hide Holds, Sub, HeadersAre, ReadHeader;
      HoldsSize(file, header, items, p);
      HoldsPreamble(file, header, items, p);
      ghost var f, h := file, header;
      SealedOffsets(h);
      Sync();
      HoldsSealed(f, h, items, p);
      SyncKeeps(f, file, header, items, p);
      if !powered && ReadHeader(file) == Some(header) {
        ReopensAs(file, header, header, items, p);
      }
    }

    /** The end of `gc`. */
    method Shrink()
      requires Valid() && Synced()
      modifies this`file, this`powered, this`header, this`disk
      ensures powered ==> Valid() && Synced() && |file| == HDR + header.endOffset + 2 * REC
      ensures !powered ==> Reopens(file, items)
      ensures header.beginOffset == old(header.beginOffset) && header.endOffset == old(header.endOffset)
      ensures stable ==> powered
    {
      hide Holds, Sub, HeadersAre, ReadHeader, Resized, Sealed;
      HoldsSize(file, header, items, p);
      ghost var f := file;
      Resize(HDR + header.endOffset + REC + REC);
      ResizeKeeps(f, header, items, p, HDR + header.endOffset + REC + REC);
      if powered {
        SyncFirst();
      } else {
        HeadersRead(file, header);
        ReopensAs(file, header, header, items, p);
      }
    }

    /** `reserveFrontSpace`: at least `size` bytes are free before the first record. */
    method ReserveFrontSpace(size: nat)
      requires Valid() && size + header.endOffset + REC < TWO64 && 2 * (header.endOffset + REC) < TWO64
      modifies this`file, this`powered, this`header, this`disk
      ensures powered ==> Valid() && size <= header.beginOffset
      ensures !powered ==> CutSafe(old(file), old(disk), file, items)
      ensures !powered && (disk != old(disk) || old(Synced())) ==> Reopens(file, items)
      ensures stable ==> powered
    {
      hide Holds, Sub, HeadersAre, ReadHeader, Reopens, Sealed, Resized, WithChecksum;
      HoldsSize(file, header, items, p);
      if size <= header.beginOffset {
        return;
      }
      var end := header.endOffset + REC;
      var len := end - header.beginOffset;
      var newBgn := if end < size then size else end;
      SyncFirst();
      if !powered {
        return;
      }
      ghost var f := file;
      Resize(HDR + newBgn + len);
      ResizeKeeps(f, header, items, p, HDR + newBgn + len);
      if !powered {
        HeadersRead(file, header);
        ReopensAs(file, header, header, items, p);
        return;
      }
      MoveTo(newBgn);
    }

    method PushFront(x: seq<byte>)
      requires Valid() && Fits(x) && REC + |x| + header.endOffset + REC < TWO64 && 2 * (header.endOffset + REC) < TWO64
      modifies this`file, this`powered, this`header, this`items, this`p, this`disk
      ensures powered ==> Valid() && items == [x] + old(items)
      ensures !powered ==> CutSafe(old(file), old(disk), file, old(items))
      ensures !powered && (disk != old(disk) || old(Synced())) ==> Reopens(file, old(items))
      ensures stable ==> powered
    {
      hide Holds, Sub, HeadersAre, ReadHeader, Reopens, Sealed, PushedFront, CutSafe;
      ReserveFrontSpace(REC + |x|);
      if !powered {
        return;
      }
      HoldsSize(file, header, items, p);
      PrependRecord(file, header, items, p, x);
      PushedFrontHeaders(file, header.beginOffset, x, header.salt, disk);
      file := PushedFront(file, header.beginOffset, x, header.salt);
      header := header.(beginOffset := header.beginOffset - TotalSize(|x|));
      items, p := [x] + items, 0;
    }

    /** A new file, with its first `sync`. */
    constructor Create(salt: word)
      ensures Valid() && Synced() && items == []
    {
      header := Header(PREAMBLE, 0, salt, 0, 0);
      file := seq(HDR, i => 0) + Stub(0);
      powered, stable, items, p := true, true, [], 0;
      new;
      hide Sub, HeadersAre, Holds, ReadHeader, Stub, Sealed, Encode;
      NewFile(seq(HDR, i => 0), header);
      SyncOpened();
    }

    /** Opening a file finds the items that a cut left readable, and repairs the headers. */
    constructor Open(f: seq<byte>, ghost xs: seq<seq<byte>>)
      requires Reopens(f, xs)
      ensures Valid() && Synced() && items == xs
      ensures |file| == |f| && HDR <= |f| && Sub(file, HDR, |f| - HDR) == Sub(f, HDR, |f| - HDR)
    {
      hide Sub, HeadersAre, Holds, ReadHeader, Sealed, Reopens;
      ghost var q := OpensAs(f, xs);
      header, file := ReadHeader(f).value, f;
      powered, stable, items, p := true, true, xs, q;
      new;
      SyncOpened();
    }

    /** The `sync` that ends `init`. */
    method SyncOpened()
      requires powered && stable && Holds(file, header, items, p) && header.endOffset < TWO64
      modifies this`file, this`powered, this`header, this`disk
      ensures Valid() && Synced() && |file| == |old(file)| && HDR <= |file|
      ensures Sub(file, HDR, |file| - HDR) == Sub(old(file), HDR, |file| - HDR)
    {
      hide Holds, Sub, HeadersAre, ReadHeader;
      HoldsSize(file, header, items, p);
      HoldsPreamble(file, header, items, p);
      ghost var f, h := file, header;
      SealedOffsets(h);
      Sync();
      HoldsSealed(f, h, items, p);
      SyncKeeps(f, file, header, items, p);
    }
  }

  lemma {:induction false} OpensAs(f: seq<byte>, items: seq<seq<byte>>) returns (p: word)
    requires Reopens(f, items)
    ensures HDR <= |f| && ReadHeader(f).Some? && ReadHeader(f).value.endOffset < TWO64
    ensures Holds(f, ReadHeader(f).value, items, p)
  {
    hide Holds, ReadHeader;
    p :| Holds(f, ReadHeader(f).value, items, p);
    DecodedOffsets(f);
  }

  lemma {:induction false} NewFile(zeros: seq<byte>, h: Header)
    requires |zeros| == HDR && h.preamble == PREAMBLE && h.beginOffset == h.endOffset == 0
    ensures Holds(zeros + Stub(0), h, [], 0)
  {
    var f := zeros + Stub(0);
    assert f[HDR..HDR + REC] == Stub(0) by { hide Stub; }
    StubToPrev(f, 0, 0);
    HoldsNothing(f, h);
  }

  lemma {:induction false} DecodedOffsets(f: seq<byte>)
    requires HDR <= |f| && ReadHeader(f).Some?
    ensures ReadHeader(f).value.endOffset < TWO64
  {
    hide Sub, IsValidHeader;
  }

  lemma {:induction false} HoldsNothing(f: seq<byte>, h: Header)
    requires h.preamble == PREAMBLE && h.beginOffset == h.endOffset == 0 && HDR + REC <= |f| && ToPrev(f, 0) == 0
    ensures Holds(f, h, [], 0)
  {
    hide FromLe32;
  }

  lemma {:induction false} HoldsPreamble(f: seq<byte>, h: Header, items: seq<seq<byte>>, p: word)
    requires Holds(f, h, items, p)
    ensures h.preamble == PREAMBLE
  {
  }

  lemma {:induction false} ResizeKeeps(f: seq<byte>, h: Header, items: seq<seq<byte>>, p: word, n: nat)
    requires Holds(f, h, items, p) && HeadersAre(f, h) && HDR + h.endOffset + REC <= n
    ensures Holds(Resized(f, n), h, items, p) && HeadersAre(Resized(f, n), h)
  {
    hide Sub, Resized, Holds, Encode;
    HoldsSize(f, h, items, p);
    var len := h.endOffset - h.beginOffset + REC;
    ResizedSub(f, n, HDR + h.beginOffset, len);
    ResizedSub(f, n, 0, 28);
    ResizedSub(f, n, 28, 28);
    Untouched(f, Resized(f, n), h, items, p);
  }

  lemma {:induction false} SealedOffsets(h: Header)
    ensures WithChecksum(h).beginOffset == h.beginOffset && WithChecksum(h).endOffset == h.endOffset
  {
  }

  /** Bytes written apart from the live region, whatever they are, leave the queue readable. */
  lemma {:induction false} CopyApart(f: seq<byte>, h: Header, items: seq<seq<byte>>, p: word, dst: nat,
                                     bytes: seq<byte>)
    requires Holds(f, h, items, p) && HeadersAre(f, h) && h.beginOffset <= h.endOffset
    requires var len := h.endOffset - h.beginOffset + REC;
             && |bytes| == len && HDR + dst + len <= |f| && HDR + h.endOffset + REC <= |f|
             && (dst + len <= h.beginOffset || h.beginOffset + len <= dst)
    ensures Holds(Splice(f, HDR + dst, bytes), h, items, p) && HeadersAre(Splice(f, HDR + dst, bytes), h)
  {
    hide Sub, Splice, Holds, Encode;
    var len := h.endOffset - h.beginOffset + REC;
    SpliceFrame(f, HDR + dst, bytes, HDR + h.beginOffset, len);
    SpliceFrame(f, HDR + dst, bytes, 0, 28);
    SpliceFrame(f, HDR + dst, bytes, 28, 28);
    Untouched(f, Splice(f, HDR + dst, bytes), h, items, p);
  }

  lemma {:induction false} CopiedHolds(f: seq<byte>, f': seq<byte>, h: Header, items: seq<seq<byte>>, p: word, dst: nat)
    requires Holds(f, h, items, p) && h.beginOffset <= h.endOffset && HDR + h.endOffset + REC <= |f|
    requires var len := h.endOffset - h.beginOffset + REC;
             HDR + dst + len <= |f| && f' == Splice(f, HDR + dst, Sub(f, HDR + h.beginOffset, len))
    ensures Holds(f', h.(beginOffset := dst, endOffset := dst + (h.endOffset - h.beginOffset)), items, p)
  {
    hide Sub, Splice, Holds;
    var len := h.endOffset - h.beginOffset + REC;
    SpliceRead(f, HDR + dst, Sub(f, HDR + h.beginOffset, len));
    Relocated(f, f', h, items, p, dst);
  }

  /** The headers are not part of the records. */
  lemma {:induction false} SyncKeeps(f: seq<byte>, f': seq<byte>, h: Header, items: seq<seq<byte>>, p: word)
    requires Holds(f, h, items, p) && |f'| == |f| && HDR <= |f| && Sub(f', HDR, |f| - HDR) == Sub(f, HDR, |f| - HDR)
    ensures Holds(f', h, items, p)
  {
    hide Sub, Holds;
    HoldsSize(f, h, items, p);
    var len := h.endOffset - h.beginOffset + REC;
    SubSub(f, HDR, |f| - HDR, h.beginOffset, len);
    SubSub(f', HDR, |f| - HDR, h.beginOffset, len);
    Untouched(f, f', h, items, p);
  }

  lemma {:induction false} ReopensAs(f: seq<byte>, h0: Header, h1: Header, items: seq<seq<byte>>, p: word)
    requires HDR <= |f| && Holds(f, h0, items, p)
    requires ReadHeader(f) == Some(h0) || (ReadHeader(f) == Some(h1) && Holds(f, h1, items, p))
    ensures Reopens(f, items)
  {
    hide Holds, ReadHeader;
  }

  lemma {:induction false} SealedFacts(h: Header)
    requires Sealed(h)
    ensures h.preamble == PREAMBLE && h.beginOffset < TWO64 && h.endOffset < TWO64 && WithChecksum(h) == h
  {
  }

  lemma {:induction false} SealTwice(h: Header)
    ensures WithChecksum(WithChecksum(h)) == WithChecksum(h)
  {
    hide Checksum, Encode;
    assert WithChecksum(h).(checksum := 0) == h.(checksum := 0);
  }

  /** `init` of an existing file: it is refused exactly if neither header is accepted. */
  method OpenFile(f: seq<byte>, ghost xs: seq<seq<byte>>) returns (r: Option<QueueFile>)
    requires HDR <= |f| && (ReadHeader(f).Some? ==> Reopens(f, xs))
    ensures r.Some? <==> ReadHeader(f).Some?
    ensures r.Some? ==> fresh(r.value) && r.value.Valid() && r.value.Synced() && r.value.items == xs
  {
    hide Reopens, ReadHeader;
    if ReadHeader(f).None? {
      return None;
    }
    var q := new QueueFile.Open(f, xs);
    return Some(q);
  }

  // ---- records that may be damaged ----

  /** Record k has the size of items[k]. */
  ghost predicate SizeAt(f: seq<byte>, h: Header, items: seq<seq<byte>>, k: nat)
    requires k < |items|
  {
    var off := h.beginOffset + Off(items, k);
    HDR + off + REC + |items[k]| <= |f| && DataSize(f, off) == |items[k]|
  }

  /** Record k, or the end stub, leads back over items[k - 1]. */
  ghost predicate LinkAt(f: seq<byte>, h: Header, items: seq<seq<byte>>, k: nat)
    requires 0 < k <= |items|
  {
    var off := h.beginOffset + Off(items, k);
    HDR + off + REC <= |f| && ToPrev(f, off) == REC + |items[k - 1]|
  }

  /** Record k passes `verifyRec`. */
  ghost predicate PassesAt(f: seq<byte>, h: Header, items: seq<seq<byte>>, k: nat)
    requires k < |items|
  {
    var off := h.beginOffset + Off(items, k);
    HDR + off + REC <= |f| && RecordOk(f, off, h.salt)
  }

  /** The sizes and links of the records lead from one to the next as for the items; their data may be anything. */
  ghost predicate Chained(f: seq<byte>, h: Header, items: seq<seq<byte>>) {
    && AllFit(items) && HDR + h.endOffset + REC <= |f| && h.beginOffset + Off(items, |items|) == h.endOffset
    && (forall k: nat :: k < |items| ==> SizeAt(f, h, items, k))
    && (forall k: nat :: 0 < k <= |items| ==> LinkAt(f, h, items, k))
  }

  lemma {:induction false} ChainSize(f: seq<byte>, h: Header, items: seq<seq<byte>>)
    requires Chained(f, h, items)
    ensures HDR + h.endOffset + REC <= |f| && h.beginOffset + Off(items, |items|) == h.endOffset
  {
  }

  lemma {:induction false} ChainNext(f: seq<byte>, h: Header, items: seq<seq<byte>>, k: nat, off: nat)
    requires Chained(f, h, items) && k < |items| && off == h.beginOffset + Off(items, k)
    ensures HDR + off + REC <= |f| && DataSize(f, off) == |items[k]| && Fits(items[k])
  {
    hide DataSize;
    assert SizeAt(f, h, items, k);
  }

  lemma {:induction false} ChainPrev(f: seq<byte>, h: Header, items: seq<seq<byte>>, k: nat, off: nat)
    requires Chained(f, h, items) && 0 < k <= |items| && off == h.beginOffset + Off(items, k)
    ensures HDR + off + REC <= |f| && off - ToPrev(f, off) == h.beginOffset + Off(items, k - 1)
  {
    hide ToPrev;
    assert LinkAt(f, h, items, k);
  }

  /** Undamaged records do, and pass. */
  lemma {:induction false} HoldsPasses(f: seq<byte>, h: Header, items: seq<seq<byte>>, p: word)
    requires Holds(f, h, items, p)
    ensures Chained(f, h, items) && forall k: nat :: k < |items| ==> PassesAt(f, h, items, k)
  {
    hide Holds, RecordOk, DataSize, ToPrev, Off;
    HoldsSize(f, h, items, p);
    assert AllFit(items) by { HoldsFits(f, h, items, p); }
    forall k: nat | k < |items| ensures SizeAt(f, h, items, k) && PassesAt(f, h, items, k) {
      ReadRecord(f, h, items, p, k, h.beginOffset + Off(items, k));
    }
    forall k: nat | 0 < k <= |items| ensures LinkAt(f, h, items, k) {
      PrevRecord(f, h, items, p, k, h.beginOffset + Off(items, k));
      OffNext(items, k - 1);
    }
  }

  lemma {:induction false} HoldsFits(f: seq<byte>, h: Header, items: seq<seq<byte>>, p: word)
    requires Holds(f, h, items, p)
    ensures AllFit(items)
  {
  }

  /** A write beside a record header leaves its fields. */
  lemma {:induction false} FieldsKept(f: seq<byte>, at: nat, bs: seq<byte>, off: nat)
    requires at + |bs| <= |f| && HDR + off + REC <= |f| && (HDR + off + REC <= at || at + |bs| <= HDR + off)
    ensures DataSize(Splice(f, at, bs), off) == DataSize(f, off) && ToPrev(Splice(f, at, bs), off) == ToPrev(f, off)
    ensures Sub(Splice(f, at, bs), HDR + off + 4, 4) == Sub(f, HDR + off + 4, 4)
  {
    hide Sub, Splice, FromLe32;
    SpliceFrame(f, at, bs, HDR + off + 4, 4);
    SpliceFrame(f, at, bs, HDR + off + 8, 4);
    SpliceFrame(f, at, bs, HDR + off + 12, 4);
  }

  /** A write into the data of record k leaves all sizes and links. */
  lemma {:induction false} ChainKept(f: seq<byte>, h: Header, items: seq<seq<byte>>, k: nat, at: nat, bs: seq<byte>)
    requires Chained(f, h, items) && k < |items| && HDR + h.beginOffset + Off(items, k) + REC <= at
    requires at + |bs| <= HDR + h.beginOffset + Off(items, k) + REC + |items[k]| <= |f|
    ensures Chained(Splice(f, at, bs), h, items)
  {
    hide Splice, DataSize, ToPrev, Off;
    var f' := Splice(f, at, bs);
    forall j: nat | j < |items| ensures SizeAt(f', h, items, j) {
      assert SizeAt(f, h, items, j);
      RecordsApart(items, k, j);
      FieldsKept(f, at, bs, h.beginOffset + Off(items, j));
    }
    forall j: nat | 0 < j <= |items| ensures LinkAt(f', h, items, j) {
      assert LinkAt(f, h, items, j);
      RecordsApart(items, k, j);
      FieldsKept(f, at, bs, h.beginOffset + Off(items, j));
    }
  }

  lemma {:induction false} RecordsApart(items: seq<seq<byte>>, k: nat, j: nat)
    requires k < |items| && j <= |items|
    ensures j <= k ==> Off(items, j) <= Off(items, k)
    ensures k < j ==> Off(items, k) + REC + |items[k]| <= Off(items, j)
  {
    hide Off;
    OffNext(items, k);
    if j <= k { OffRises(items, j, k); } else { OffRises(items, k + 1, j); }
  }

  /** Any change within one word of a record's data, bs for the bytes there, is found: the walk still visits every
      record, and this one does not pass. */
  lemma {:induction false} DamagedRecordFails(f: seq<byte>, h: Header, items: seq<seq<byte>>, p: word, k: nat, i: nat,
                                              bs: seq<byte>, at: nat)
    requires Holds(f, h, items, p) && k < |items| && 4 * i + |bs| <= |items[k]|
    requires 0 < |bs| && (|bs| == 4 || (|bs| < 4 && 4 * i + |bs| == |items[k]|))
    requires bs != items[k][4 * i..4 * i + |bs|] && at == HDR + h.beginOffset + Off(items, k) + REC + 4 * i
    ensures at + |bs| <= |f| && Chained(Splice(f, at, bs), h, items) && !PassesAt(Splice(f, at, bs), h, items, k)
  {
    hide Holds, Splice, DataSize, ToPrev, Off, Chained, RecordOk;
    var off := h.beginOffset + Off(items, k);
    HoldsPasses(f, h, items, p);
    ReadRecord(f, h, items, p, k, off);
    ChainKept(f, h, items, k, at, bs);
    WrongSum(f, off, h.salt, items[k], i, bs, at);
  }

  /** So is any change of the preamble (c == 0) or of the checksum (c == 4) in a record header. */
  lemma {:induction false} DamagedFieldFails(f: seq<byte>, h: Header, items: seq<seq<byte>>, p: word, k: nat, c: nat,
                                             bs: seq<byte>, at: nat)
    requires Holds(f, h, items, p) && k < |items| && (c == 0 || c == 4) && |bs| == 4
    requires at == HDR + h.beginOffset + Off(items, k) + c && at + 4 <= |f| && bs != Sub(f, at, 4)
    ensures Chained(Splice(f, at, bs), h, items) && !PassesAt(Splice(f, at, bs), h, items, k)
  {
    hide Holds, Splice, DataSize, ToPrev, Off, Chained, RecordOk;
    var off := h.beginOffset + Off(items, k);
    HoldsPasses(f, h, items, p);
    ReadRecord(f, h, items, p, k, off);
    ChainBeside(f, h, items, k, at, bs);
    WrongField(f, off, h.salt, c, bs);
  }

  lemma {:induction false} WrongField(f: seq<byte>, off: nat, salt: word, c: nat, bs: seq<byte>)
    requires HDR + off + REC <= |f| && RecordOk(f, off, salt) && (c == 0 || c == 4) && |bs| == 4
    requires bs != Sub(f, HDR + off + c, 4)
    ensures !RecordOk(Splice(f, HDR + off + c, bs), off, salt)
  {
    hide Splice, Sub, FromLe32, Checksum;
    var at := HDR + off + c;
    SpliceRead(f, at, bs);
    WordsDiffer(bs, Sub(f, at, 4));
    SpliceFrame(f, at, bs, HDR + off + 8, 4);
    SpliceFrame(f, at, bs, HDR + off + REC, DataSize(f, off));
  }

  /** A write into the preamble or checksum of record k leaves all sizes and links. */
  lemma {:induction false} ChainBeside(f: seq<byte>, h: Header, items: seq<seq<byte>>, k: nat, at: nat, bs: seq<byte>)
    requires Chained(f, h, items) && k < |items| && HDR + h.beginOffset + Off(items, k) <= at
    requires at + |bs| <= HDR + h.beginOffset + Off(items, k) + 8 <= |f|
    ensures Chained(Splice(f, at, bs), h, items)
  {
    hide Splice, Off;
    var f' := Splice(f, at, bs);
    forall j: nat | j < |items| ensures SizeAt(f', h, items, j) {
      assert SizeAt(f, h, items, j);
      EarlierEnds(items, k, j);
      SpliceFrame(f, at, bs, HDR + h.beginOffset + Off(items, j) + 8, 4);
    }
    forall j: nat | 0 < j <= |items| ensures LinkAt(f', h, items, j) {
      assert LinkAt(f, h, items, j);
      EarlierEnds(items, k, j);
      SpliceFrame(f, at, bs, HDR + h.beginOffset + Off(items, j) + 12, 4);
    }
  }

  lemma {:induction false} EarlierEnds(items: seq<seq<byte>>, k: nat, j: nat)
    requires k < |items| && j <= |items|
    ensures j < k ==> Off(items, j) + REC <= Off(items, k)
    ensures k <= j ==> Off(items, k) <= Off(items, j)
  {
    hide Off;
    if j < k { RecordsApart(items, j, k); } else { OffRises(items, k, j); }
  }

  lemma {:induction false} WrongSum(f: seq<byte>, off: nat, salt: word, x: seq<byte>, i: nat, bs: seq<byte>, at: nat)
    requires HDR + off + REC + |x| <= |f| && RecordOk(f, off, salt) && DataSize(f, off) == |x|
    requires Sub(f, HDR + off + REC, |x|) == x && at == HDR + off + REC + 4 * i && 4 * i + |bs| <= |x|
    requires 0 < |bs| && (|bs| == 4 || (|bs| < 4 && 4 * i + |bs| == |x|)) && bs != x[4 * i..4 * i + |bs|]
    ensures !RecordOk(Splice(f, at, bs), off, salt)
  {
    hide Splice, DataSize, Sub, Partial;
    FieldsKept(f, at, bs, off);
    SpliceInside(f, HDR + off + REC, x, 4 * i, bs);
    OtherSum(x, i, bs, salt);
  }

  lemma {:induction false} SpliceInside(f: seq<byte>, off: nat, x: seq<byte>, a: nat, bs: seq<byte>)
    requires off + |x| <= |f| && Sub(f, off, |x|) == x && a + |bs| <= |x|
    ensures Sub(Splice(f, off + a, bs), off, |x|) == Splice(x, a, bs)
  {
    var r, y := Sub(Splice(f, off + a, bs), off, |x|), Splice(x, a, bs);
    forall i | 0 <= i < |x| ensures r[i] == y[i] {
      assert f[off + i] == Sub(f, off, |x|)[i];
    }
  }

  lemma {:induction false} OtherSum(x: seq<byte>, i: nat, bs: seq<byte>, salt: word)
    requires 4 * i + |bs| <= |x| && 0 < |bs| && (|bs| == 4 || (|bs| < 4 && 4 * i + |bs| == |x|))
    requires bs != x[4 * i..4 * i + |bs|]
    ensures Checksum(Splice(x, 4 * i, bs), salt) != Checksum(x, salt)
  {
    hide Partial;
    var a, b := 4 * i, 4 * i + |bs|;
    ThreeParts(x, a, b);
    assert Splice(x, a, bs) == x[..a] + (bs + x[b..]);
    OneWordCounts(x[..a], bs, x[a..b], x[b..], salt);
  }

  lemma {:induction false} OffNone(items: seq<seq<byte>>)
    ensures Off(items, 0) == 0
  {
  }

  lemma {:induction false} OffNext(items: seq<seq<byte>>, k: nat)
    requires k < |items|
    ensures Off(items, k + 1) == Off(items, k) + REC + |items[k]|
  {
  }

  lemma {:induction false} OffRises(items: seq<seq<byte>>, k: nat, n: nat)
    requires k <= n <= |items|
    ensures Off(items, k) < Off(items, n) <==> k < n
  {
    if k < n { OffRises(items, k, n - 1); }
  }

  lemma {:induction false} ReadFirst(f: seq<byte>, h: Header, items: seq<seq<byte>>, p: word)
    requires Holds(f, h, items, p) && items != []
    ensures HDR + h.beginOffset + REC <= |f| && Fits(items[0])
    ensures TotalSize(DataSize(f, h.beginOffset)) == REC + |items[0]|
  {
    hide Holds, DataSize;
    OffNone(items);
    ReadRecord(f, h, items, p, 0, h.beginOffset);
  }

  lemma {:induction false} HoldsSize(f: seq<byte>, h: Header, items: seq<seq<byte>>, p: word)
    requires Holds(f, h, items, p)
    ensures h.beginOffset <= h.endOffset && HDR + h.endOffset + REC <= |f|
    ensures h.beginOffset == h.endOffset <==> items == []
    ensures h.beginOffset + Off(items, |items|) == h.endOffset
  {
    hide Sub, FromLe32, RecHeader;
    BodySplit(items, p, h.salt, |items|);
    assert items[..|items|] == items;
  }

  /** Going back from record k (or the end) by its `toPrev` leads to record k - 1. */
  lemma {:induction false} PrevRecord(f: seq<byte>, h: Header, items: seq<seq<byte>>, p: word, k: nat, off: nat)
    requires Holds(f, h, items, p) && 0 < k <= |items| && off == h.beginOffset + Off(items, k)
    ensures HDR + off + REC <= |f|
    ensures off - ToPrev(f, off) == h.beginOffset + Off(items, k - 1)
  {
    hide Sub, FromLe32, RecHeader, Body, RecordOk;
    HoldsSize(f, h, items, p);
    assert Fits(items[k - 1]);
    if k < |items| {
      ReadRecord(f, h, items, p, k, off);
      assert items[..k][k - 1] == items[k - 1];
    }
  }
}
