/** Block writes, devices, and the contents a sequence of writes leaves. */
module BlockWrites {
  type byte = x: int | 0 <= x < 256

  /** Contents of a block device, byte by byte. */
  type Device = nat -> byte

  /** One write: device offset, address of its buffer in memory, and the bytes in the buffer. */
  datatype Write = Write(offset: nat, addr: nat, data: seq<byte>)

  predicate Covers(w: Write, a: nat) {
    w.offset <= a < w.offset + |w.data|
  }

  predicate Overlaps(x: Write, y: Write) {
    x.offset < y.offset + |y.data| && y.offset < x.offset + |x.data|
  }

  /** Every byte of x is written by y. */
  predicate CoveredBy(x: Write, y: Write) {
    y.offset <= x.offset && x.offset + |x.data| <= y.offset + |y.data|
  }

  ghost predicate Same(d: Device, e: Device) {
    forall a: nat :: d(a) == e(a)
  }

  /** The device after `pwrite`. */
  function Put(d: Device, w: Write): Device {
    (a: nat) => if Covers(w, a) then w.data[a - w.offset] else d(a)
  }

  /** Byte `a` after doing the first n writes, one after the other, starting from `d`. */
  function Byte(ws: seq<Write>, n: nat, a: nat, d: Device): byte
    requires n <= |ws|
  {
    if n == 0 then d(a)
    else if Covers(ws[n - 1], a) then ws[n - 1].data[a - ws[n - 1].offset]
    else Byte(ws, n - 1, a, d)
  }

  /** The device after doing all the writes in order. */
  ghost predicate IsFifoResult(ws: seq<Write>, d: Device, result: Device) {
    forall a: nat :: result(a) == Byte(ws, |ws|, a, d)
  }

  /** Two logs that leave the same bytes on device d. */
  ghost predicate SameBytes(ws: seq<Write>, ws': seq<Write>, d: Device) {
    forall a: nat :: Byte(ws, |ws|, a, d) == Byte(ws', |ws'|, a, d)
  }

  /** Like `Byte`, but only the writes in `live` have reached the device. */
  ghost function LiveByte(ws: seq<Write>, live: set<nat>, n: nat, a: nat, d: Device): byte
    requires n <= |ws|
  {
    if n == 0 then d(a)
    else if n - 1 in live && Covers(ws[n - 1], a) then ws[n - 1].data[a - ws[n - 1].offset]
    else LiveByte(ws, live, n - 1, a, d)
  }

  lemma {:induction false} ByteOfPrefix(ws: seq<Write>, more: seq<Write>, n: nat, a: nat, d: Device)
    requires n <= |ws|
    ensures Byte(ws + more, n, a, d) == Byte(ws, n, a, d)
  {
    if n > 0 { ByteOfPrefix(ws, more, n - 1, a, d); }
  }

  lemma {:induction false} FifoAppend(ws: seq<Write>, w: Write, d: Device, result: Device)
    requires IsFifoResult(ws, d, result)
    ensures IsFifoResult(ws + [w], d, Put(result, w))
  {
    forall a: nat ensures Put(result, w)(a) == Byte(ws + [w], |ws| + 1, a, d) {
      ByteOfPrefix(ws, [w], |ws|, a, d);
    }
  }

  /** The last live write covering `a` decides the byte. */
  lemma {:induction false} LiveByteIs(ws: seq<Write>, live: set<nat>, n: nat, a: nat, d: Device, i: nat)
    requires i < n <= |ws| && i in live && Covers(ws[i], a)
    requires forall j :: i < j < n && j in live ==> !Covers(ws[j], a)
    ensures LiveByte(ws, live, n, a, d) == ws[i].data[a - ws[i].offset]
  {
    if n - 1 != i { LiveByteIs(ws, live, n - 1, a, d, i); }
  }

  lemma {:induction false} LiveByteSame(ws: seq<Write>, ws': seq<Write>, live: set<nat>, live': set<nat>,
                                        n: nat, a: nat, d: Device)
    requires n <= |ws| && n <= |ws'|
    requires forall j :: 0 <= j < n && j in live ==> ws[j] == ws'[j]
    requires forall j :: 0 <= j < n && Covers(ws'[j], a) ==> (j in live <==> j in live')
    requires forall j :: 0 <= j < n && j in live' ==> ws[j] == ws'[j]
    ensures LiveByte(ws, live, n, a, d) == LiveByte(ws', live', n, a, d)
  {
    if n > 0 { LiveByteSame(ws, ws', live, live', n - 1, a, d); }
  }

  /** Skipped writes do not show when each of them is wholly rewritten by a later one. */
  lemma {:induction false} SkippedDoNotShow(ws: seq<Write>, live: set<nat>, m: nat, a: nat, d: Device)
    requires m <= |ws|
    requires forall i :: 0 <= i < |ws| && i !in live ==> exists j :: i < j < |ws| && CoveredBy(ws[i], ws[j])
    requires forall j :: m <= j < |ws| ==> !Covers(ws[j], a)
    ensures LiveByte(ws, live, m, a, d) == Byte(ws, m, a, d)
  {
    if m > 0 && !Covers(ws[m - 1], a) {
      SkippedDoNotShow(ws, live, m - 1, a, d);
    }
  }

  // ---- merging a write into an earlier one ----

  /** The buffers and the targets of both writes are adjacent (`Io::canMerge`). */
  predicate CanMerge(x: Write, y: Write) {
    x.offset + |x.data| == y.offset && x.addr + |x.data| == y.addr
  }

  function Merged(x: Write, y: Write): Write {
    Write(x.offset, x.addr, x.data + y.data)
  }

  // ---- buffers in memory ----

  /** Contents of the memory, byte by byte. */
  type Memory = nat -> byte

  predicate InBuffer(w: Write, p: nat) {
    w.addr <= p < w.addr + |w.data|
  }

  /** The memory holds the bytes of w in its buffer. */
  ghost predicate Backed(mem: Memory, w: Write) {
    forall p: nat :: InBuffer(w, p) ==> mem(p) == w.data[p - w.addr]
  }

  /** The write a request (offset, size, address) makes: its bytes are those the memory holds. */
  function FromMemory(mem: Memory, offset: nat, size: nat, addr: nat): (w: Write)
    ensures w.offset == offset && w.addr == addr && |w.data| == size && Backed(mem, w)
  {
    Write(offset, addr, seq(size, i requires 0 <= i < size => mem(addr + i)))
  }

  /** A caller fills the buffer of w. */
  function Fill(mem: Memory, w: Write): Memory {
    (p: nat) => if InBuffer(w, p) then w.data[p - w.addr] else mem(p)
  }

  /** Where the buffers of x and y share an address, both have the same byte there. */
  predicate Compatible(x: Write, y: Write) {
    forall p: nat :: x.addr <= p < x.addr + |x.data| && InBuffer(y, p) ==> x.data[p - x.addr] == y.data[p - y.addr]
  }

  lemma {:induction false} SameBufferByte(mem: Memory, x: Write, y: Write, p: nat)
    requires Backed(mem, x) && Backed(mem, y) && InBuffer(x, p) && InBuffer(y, p)
    ensures x.data[p - x.addr] == y.data[p - y.addr]
  {
  }

  lemma {:induction false} BackedIsRead(mem: Memory, w: Write)
    requires Backed(mem, w)
    ensures FromMemory(mem, w.offset, |w.data|, w.addr) == w
  {
    hide FromMemory;
    var r := FromMemory(mem, w.offset, |w.data|, w.addr);
    forall i | 0 <= i < |w.data| ensures r.data[i] == w.data[i] {
      SameBufferByte(mem, r, w, w.addr + i);
    }
    assert r.data == w.data;
  }

  lemma {:induction false} MergedIsBacked(mem: Memory, x: Write, y: Write)
    requires CanMerge(x, y) && Backed(mem, x) && Backed(mem, y)
    ensures Backed(mem, Merged(x, y))
  {
    var m := Merged(x, y);
    forall p: nat | InBuffer(m, p) ensures mem(p) == m.data[p - m.addr] {
      assert InBuffer(x, p) || InBuffer(y, p);
    }
  }

  lemma {:induction false} MergedIsCompatible(x: Write, y: Write, v: Write)
    requires CanMerge(x, y) && Compatible(x, v) && Compatible(y, v)
    ensures Compatible(Merged(x, y), v)
  {
    var m := Merged(x, y);
    forall p: nat | InBuffer(m, p) && InBuffer(v, p) ensures m.data[p - m.addr] == v.data[p - v.addr] {
      assert InBuffer(x, p) || InBuffer(y, p);
    }
  }

  /** One request from the address of x, as long as both writes, does what x and then y would do: on every device, and
      whatever else the memory holds. */
  ghost predicate OneRequestDoes(x: Write, y: Write) {
    forall mem: Memory, d: Device :: Backed(mem, x) && Backed(mem, y) ==>
      Same(Put(d, FromMemory(mem, x.offset, |x.data| + |y.data|, x.addr)), Put(Put(d, x), y))
  }

  /** Byte a after x and then y. */
  lemma {:induction false} ByteAfterBoth(d: Device, x: Write, y: Write, a: nat)
    ensures Put(Put(d, x), y)(a) == if Covers(y, a) then y.data[a - y.offset]
                                    else if Covers(x, a) then x.data[a - x.offset] else d(a)
  {
  }

  lemma {:induction false} ByteAfterMerged(d: Device, x: Write, y: Write, a: nat)
    requires CanMerge(x, y)
    ensures Put(d, Merged(x, y))(a) == if Covers(y, a) then y.data[a - y.offset]
                                       else if Covers(x, a) then x.data[a - x.offset] else d(a)
  {
    var m, k := Merged(x, y), a - x.offset;
    assert Put(d, m)(a) == if Covers(m, a) then m.data[k] else d(a);
    if Covers(y, a) {
      assert m.data[k] == y.data[k - |x.data|] && k - |x.data| == a - y.offset;
    } else if Covers(x, a) {
      assert m.data[k] == x.data[k];
    }
  }

  lemma {:induction false} MergedDoesBoth(x: Write, y: Write, mem: Memory, d: Device)
    requires CanMerge(x, y) && Backed(mem, x) && Backed(mem, y)
    ensures Same(Put(d, FromMemory(mem, x.offset, |x.data| + |y.data|, x.addr)), Put(Put(d, x), y))
  {
    hide Backed, Put, FromMemory, Covers;
    MergedIsBacked(mem, x, y);
    BackedIsRead(mem, Merged(x, y));
    forall a: nat ensures Put(d, Merged(x, y))(a) == Put(Put(d, x), y)(a) {
      ByteAfterMerged(d, x, y, a);
      ByteAfterBoth(d, x, y, a);
    }
  }

  /** A memory with the buffers of x and y, and the byte b at an address in neither of them. */
  lemma {:induction false} BothBuffers(x: Write, y: Write, p: nat, b: byte) returns (mem: Memory)
    requires Compatible(x, y) && !InBuffer(x, p) && !InBuffer(y, p)
    ensures Backed(mem, x) && Backed(mem, y) && mem(p) == b
  {
    mem := Fill(Fill(q => b, x), y);
  }

  /** The byte a request puts at its k-th place. */
  lemma {:induction false} RequestByte(mem: Memory, offset: nat, size: nat, addr: nat, d: Device, k: nat)
    requires k < size
    ensures Put(d, FromMemory(mem, offset, size, addr))(offset + k) == mem(addr + k)
  {
    hide FromMemory;
    var r := FromMemory(mem, offset, size, addr);
    assert InBuffer(r, addr + k) && Covers(r, offset + k);
    hide Backed;
    assert r.data[addr + k - addr] == r.data[offset + k - offset];
  }

  /** A byte at which the request differs from the two writes. */
  lemma {:induction false} RequestDiffers(x: Write, y: Write, mem: Memory, d: Device, k: nat)
    requires k < |x.data| + |y.data| && Backed(mem, x) && Backed(mem, y)
    requires mem(x.addr + k) != Put(Put(d, x), y)(x.offset + k)
    ensures !OneRequestDoes(x, y)
  {
    hide Backed, Put, FromMemory;
    RequestByte(mem, x.offset, |x.data| + |y.data|, x.addr, d, k);
    assert !Same(Put(d, FromMemory(mem, x.offset, |x.data| + |y.data|, x.addr)), Put(Put(d, x), y));
  }

  /** Two non-empty writes may be merged exactly when one request does both. */
  lemma {:induction false} CanMergeIff(x: Write, y: Write)
    requires x.data != [] && y.data != [] && Compatible(x, y)
    ensures CanMerge(x, y) <==> OneRequestDoes(x, y)
  {
    if CanMerge(x, y) {
      forall mem: Memory, d: Device | Backed(mem, x) && Backed(mem, y)
        ensures Same(Put(d, FromMemory(mem, x.offset, |x.data| + |y.data|, x.addr)), Put(Put(d, x), y))
      {
        MergedDoesBoth(x, y, mem, d);
      }
    } else if x.offset + |x.data| != y.offset {
      TargetsApart(x, y);
    } else {
      BuffersApart(x, y);
    }
  }

  /** Targets that are not adjacent: the request touches a byte that neither write does. */
  lemma {:induction false} TargetsApart(x: Write, y: Write)
    requires x.data != [] && y.data != [] && Compatible(x, y) && x.offset + |x.data| != y.offset
    ensures !OneRequestDoes(x, y)
  {
    hide Backed, Put, Compatible, OneRequestDoes;
    var mem := BothBuffers(x, y, x.addr + |x.data| + y.addr + |y.data|, 0);
    var k := if x.offset + |x.data| < y.offset then |x.data| else |x.data| + |y.data| - 1;
    var b: byte := if mem(x.addr + k) == 0 then 1 else 0;
    ByteAfterBoth(a => b, x, y, x.offset + k);
    RequestDiffers(x, y, mem, a => b, k);
  }

  /** Buffers that are not adjacent: the request reads a byte that belongs to neither write. */
  lemma {:induction false} BuffersApart(x: Write, y: Write)
    requires x.data != [] && y.data != [] && Compatible(x, y)
    requires x.offset + |x.data| == y.offset && x.addr + |x.data| != y.addr
    ensures !OneRequestDoes(x, y)
  {
    hide Backed, Put, Compatible, OneRequestDoes;
    var k := if x.addr + |x.data| < y.addr then |x.data| else |x.data| + |y.data| - 1;
    var right := y.data[k - |x.data|];
    var mem := BothBuffers(x, y, x.addr + k, if right == 0 then 1 else 0);
    ByteAfterBoth(a => 0, x, y, x.offset + k);
    assert x.offset + k - y.offset == k - |x.data|;
    RequestDiffers(x, y, mem, a => 0, k);
  }

  /** Write j is the last one after f to touch byte a. */
  ghost predicate LastAfter(ws: seq<Write>, f: nat, j: nat, a: nat) {
    f < j < |ws| && Covers(ws[j], a) && forall k :: j < k < |ws| ==> !Covers(ws[k], a)
  }

  /** Merging w into write f moves w in front of the writes after f: harmless exactly when they
      leave the bytes of w as w itself would. */
  ghost predicate MergeHarmless(ws: seq<Write>, f: nat, w: Write) {
    forall j: nat, a: nat :: LastAfter(ws, f, j, a) && Covers(w, a)
                   ==> ws[j].data[a - ws[j].offset] == w.data[a - w.offset]
  }

  lemma {:induction false} ByteIs(ws: seq<Write>, n: nat, a: nat, d: Device, i: nat)
    requires i < n <= |ws| && Covers(ws[i], a)
    requires forall j :: i < j < n ==> !Covers(ws[j], a)
    ensures Byte(ws, n, a, d) == ws[i].data[a - ws[i].offset]
  {
    if n - 1 != i { ByteIs(ws, n - 1, a, d, i); }
  }

  lemma {:induction false} ByteSkip(ws: seq<Write>, m: nat, n: nat, a: nat, d: Device)
    requires m <= n <= |ws|
    requires forall j :: m <= j < n ==> !Covers(ws[j], a)
    ensures Byte(ws, n, a, d) == Byte(ws, m, a, d)
  {
    if m < n { ByteSkip(ws, m, n - 1, a, d); }
  }

  lemma {:induction false} ByteOfEqualPrefix(ws: seq<Write>, ws': seq<Write>, n: nat, a: nat, d: Device)
    requires n <= |ws| && n <= |ws'| && ws[..n] == ws'[..n]
    ensures Byte(ws, n, a, d) == Byte(ws', n, a, d)
  {
    if n > 0 {
      assert ws[n - 1] == ws[..n][n - 1] == ws'[..n][n - 1];
      assert ws[..n - 1] == ws[..n][..n - 1] == ws'[..n][..n - 1];
      ByteOfEqualPrefix(ws, ws', n - 1, a, d);
    }
  }

  /** The highest write in (f, n) touching byte a, if there is one. */
  ghost function FindLast(ws: seq<Write>, f: nat, n: nat, a: nat): (j: nat)
    requires f < n <= |ws|
    ensures f <= j < n
    ensures f < j ==> Covers(ws[j], a)
    ensures forall k :: j < k < n ==> !Covers(ws[k], a)
  {
    if n - 1 == f || Covers(ws[n - 1], a) then n - 1 else FindLast(ws, f, n - 1, a)
  }

  /** Byte by byte: the merged log and the log with w appended differ only under a later write. */
  lemma {:induction false} MergedByte(ws: seq<Write>, f: nat, w: Write, a: nat, d: Device)
    requires f < |ws| && CanMerge(ws[f], w)
    ensures var j := FindLast(ws, f, |ws|, a);
            var merged := Byte(ws[f := Merged(ws[f], w)], |ws|, a, d);
            merged == if f < j then ws[j].data[a - ws[j].offset]
                      else Byte(ws + [w], |ws| + 1, a, d)
    ensures Byte(ws + [w], |ws| + 1, a, d)
            == if Covers(w, a) then w.data[a - w.offset] else Byte(ws, |ws|, a, d)
  {
    var n := |ws|;
    var ws' := ws[f := Merged(ws[f], w)];
    var j := FindLast(ws, f, n, a);
    ByteOfPrefix(ws, [w], n, a, d);
    if f < j {
      ByteIs(ws', n, a, d, j);
    } else {
      ByteSkip(ws', f + 1, n, a, d);
      ByteSkip(ws, f + 1, n, a, d);
      ByteOfEqualPrefix(ws, ws', f, a, d);
    }
  }

  /** Merging into write f leaves what appending would leave, on every device, if and only if
      it is harmless. */
  lemma {:induction false} MergeKeepsFifoIffHarmless(ws: seq<Write>, f: nat, w: Write, d: Device)
    requires f < |ws| && CanMerge(ws[f], w)
    ensures SameBytes(ws[f := Merged(ws[f], w)], ws + [w], d) <==> MergeHarmless(ws, f, w)
  {
    var n := |ws|;
    var ws' := ws[f := Merged(ws[f], w)];
    if MergeHarmless(ws, f, w) {
      forall a: nat ensures Byte(ws', n, a, d) == Byte(ws + [w], n + 1, a, d) {
        MergedByte(ws, f, w, a, d);
        var j := FindLast(ws, f, n, a);
        if f < j {
          assert LastAfter(ws, f, j, a);
          ByteIs(ws, n, a, d, j);
        }
      }
    }
    if SameBytes(ws', ws + [w], d) {
      forall j: nat, a: nat | LastAfter(ws, f, j, a) && Covers(w, a)
        ensures ws[j].data[a - ws[j].offset] == w.data[a - w.offset]
      {
        MergedByte(ws, f, w, a, d);
        assert Byte(ws', n, a, d) == Byte(ws + [w], n + 1, a, d);
        assert FindLast(ws, f, n, a) == j;
      }
    }
  }

  /** The hypothesis usually met: no write behind f touches the merged bytes. */
  lemma {:induction false} DisjointMergeIsHarmless(ws: seq<Write>, f: nat, w: Write)
    requires forall j :: f < j < |ws| ==> !Overlaps(ws[j], w)
    ensures MergeHarmless(ws, f, w)
  {
  }

  // ---- a FIFO order that merging breaks ----

  /** One logical block filled with b. */
  function Block(b: byte): (s: seq<byte>)
    ensures |s| == 512 && forall i :: 0 <= i < 512 ==> s[i] == b
  {
    seq(512, i => b)
  }

  /** X at block 0, Y at block 1, then W at block 1 from the memory behind X. W merges into X, in front of Y. */
  lemma {:induction false} MergeCanReorder(d: Device)
    ensures var x, y, w := Write(0, 4096, Block(1)), Write(512, 9000, Block(2)), Write(512, 4608, Block(3));
            CanMerge(x, w) && !MergeHarmless([x, y], 0, w)
            && Byte([Merged(x, w), y], 2, 512, d) == 2 && Byte([x, y, w], 3, 512, d) == 3
  {
    var x, y, w := Write(0, 4096, Block(1)), Write(512, 9000, Block(2)), Write(512, 4608, Block(3));
    assert LastAfter([x, y], 0, 1, 512) && Covers(w, 512);
  }
}
