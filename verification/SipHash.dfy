/** Streaming SipHash (include/siphash.hpp). */
module SipHashes {
  import opened BlockWrites

  datatype V = V(v0: bv64, v1: bv64, v2: bv64, v3: bv64)

  /** `rotate`, by the amounts a round uses. */
  function Rotate13(x: bv64): bv64 { (x << 13) | (x >> 51) }
  function Rotate16(x: bv64): bv64 { (x << 16) | (x >> 48) }
  function Rotate17(x: bv64): bv64 { (x << 17) | (x >> 47) }
  function Rotate21(x: bv64): bv64 { (x << 21) | (x >> 43) }
  function Rotate32(x: bv64): bv64 { (x << 32) | (x >> 32) }

  /** `doSipRound` */
  function SipRound(v: V): V {
    var a0, a2 := v.v0 + v.v1, v.v2 + v.v3;
    var a1, a3 := Rotate13(v.v1) ^ a0, Rotate16(v.v3) ^ a2;
    var b0 := Rotate32(a0);
    var b2, c0 := a2 + a1, b0 + a3;
    V(c0, Rotate17(a1) ^ b2, Rotate32(b2), Rotate21(a3) ^ c0)
  }

  function Rounds(v: V, n: nat): V {
    if n == 0 then v else SipRound(Rounds(v, n - 1))
  }

  function Word(s: seq<byte>): bv64
    requires |s| <= 8
  {
    if s == [] then 0 else WithByte(Word(s[1..]), AsWord(s[0]))
  }

  function WithByte(w: bv64, b: bv64): bv64 {
    (w << 8) | b
  }

  function AsWord(b: byte): bv64 {
    b as bv64
  }

  /** `compressMessage` of eight bytes. */
  function CompressWord(v: V, s: seq<byte>, c: nat): V
    requires |s| == 8
  {
    var m := Word(s);
    var w := Rounds(v.(v3 := v.v3 ^ m), c);
    w.(v0 := w.v0 ^ m)
  }

  function Init(k0: bv64, k1: bv64): V {
    V(k0 ^ 0x736f6d6570736575, k1 ^ 0x646f72616e646f6d, k0 ^ 0x6c7967656e657261, k1 ^ 0x7465646279746573)
  }

  // ---- the definition: whole message, block by block ----

  function Absorb(v: V, msg: seq<byte>, c: nat): V
    decreases |msg|
  {
    if |msg| < 8 then v else Absorb(CompressWord(v, msg[..8], c), msg[8..], c)
  }

  /** The bytes after the last full block. */
  function Rest(msg: seq<byte>): (r: seq<byte>)
    ensures |r| < 8
  {
    if |msg| < 8 then msg else Rest(msg[8..])
  }

  function LowByte(n: nat): byte {
    var r: int := n % 256;
    r
  }

  /** The last word: the remaining bytes, zeros, and the length. */
  function LastBlock(msg: seq<byte>): (s: seq<byte>)
    ensures |s| == 8
  {
    Rest(msg) + seq(7 - |Rest(msg)|, i => 0) + [LowByte(|msg|)]
  }

  function Final(v: V, last: seq<byte>, c: nat, d: nat): bv64
    requires |last| == 8
  {
    var w := CompressWord(v, last, c);
    var f := Rounds(w.(v2 := w.v2 ^ 0xff), d);
    (f.v0 ^ f.v1) ^ (f.v2 ^ f.v3)
  }

  function Hash(msg: seq<byte>, k0: bv64, k1: bv64, c: nat, d: nat): bv64 {
    Final(Absorb(Init(k0, k1), msg, c), LastBlock(msg), c, d)
  }

  // ---- byte order and the last block ----

  /** Byte i of a word, the lowest first. */
  function ByteOf(w: bv64, i: nat): bv64 {
    if i == 0 then Bottom(w) else ByteOf(Above(w), i - 1)
  }

  function Bottom(w: bv64): bv64 { w & 0xff }

  function Above(w: bv64): bv64 { w >> 8 }

  /** A number of n bytes. */
  predicate Small(w: bv64, n: nat)
    requires n <= 7
  {
    match n
    case 0 => w == 0
    case 1 => w <= 0xff
    case 2 => w <= 0xffff
    case 3 => w <= 0xff_ffff
    case 4 => w <= 0xffff_ffff
    case 5 => w <= 0xff_ffff_ffff
    case 6 => w <= 0xffff_ffff_ffff
    case _ => w <= 0xff_ffff_ffff_ffff
  }

  lemma {:induction false} SmallByte(b: byte)
    ensures Small(AsWord(b), 1)
  {
  }

  lemma {:induction false} OneByteMore(w: bv64, b: bv64, n: nat)
    requires n < 7 && Small(w, n) && Small(b, 1)
    ensures Small(WithByte(w, b), n + 1)
  {
  }

  lemma {:induction false} WordIsSmall(s: seq<byte>)
    requires |s| <= 7
    ensures Small(Word(s), |s|)
  {
    hide Small, AsWord, WithByte;
    if s == [] {
      assert Small(0, 0) by { NoBytes(); }
    } else {
      WordIsSmall(s[1..]);
      SmallByte(s[0]);
      OneByteMore(Word(s[1..]), AsWord(s[0]), |s| - 1);
    }
  }

  lemma {:induction false} NoBytes()
    ensures Small(0, 0)
  {
  }

  lemma {:induction false} FirstByte(w: bv64, b: bv64, n: nat)
    requires n <= 7 && Small(w, n) && Small(b, 1)
    ensures Above(WithByte(w, b)) == w && Bottom(WithByte(w, b)) == b
  {
  }

  /** Words are little-endian: byte i of the word is byte i of the message. */
  lemma {:induction false} WordByte(s: seq<byte>, i: nat)
    requires i < |s| <= 8
    ensures ByteOf(Word(s), i) == AsWord(s[i])
  {
    hide Small, AsWord, WithByte, Above, Bottom;
    var t := s[1..];
    WordIsSmall(t);
    SmallByte(s[0]);
    FirstByte(Word(t), AsWord(s[0]), |t|);
    if i > 0 { WordByte(t, i - 1); }
  }

  /** The rest is what is behind the last multiple of eight. */
  lemma {:induction false} RestIs(msg: seq<byte>)
    ensures Rest(msg) == msg[|msg| - |msg| % 8..]
    decreases |msg|
  {
    if |msg| >= 8 {
      RestIs(msg[8..]);
      assert (|msg| - 8) % 8 == |msg| % 8;
    }
  }

  /** The last block: the bytes behind the last multiple of eight, zeros, and the length modulo 256 as the highest
      byte. */
  lemma {:induction false} LastBlockIs(msg: seq<byte>, i: nat)
    requires i < 8
    ensures LastBlock(msg)[i] == if i < |msg| % 8 then msg[|msg| - |msg| % 8 + i] else if i < 7 then 0 else |msg| % 256
    ensures ByteOf(Word(LastBlock(msg)), i) == AsWord(LastBlock(msg)[i])
  {
    hide Word, ByteOf, AsWord;
    RestIs(msg);
    WordByte(LastBlock(msg), i);
  }

  // ---- a published hash ----

  lemma {:induction false} TwoRounds(v: V)
    ensures Rounds(v, 2) == SipRound(SipRound(v)) && Rounds(v, 4) == SipRound(SipRound(SipRound(SipRound(v))))
  {
    hide SipRound;
    assert Rounds(v, 1) == SipRound(Rounds(v, 0));
    assert Rounds(v, 3) == SipRound(Rounds(v, 2));
  }

  lemma {:induction false} FirstRounds()
    ensures var v := V(0x7469686173716475, 0x6b617f6d656e6665, 0x6b7f62616d677361, 0x7c6d6c6a717c6d7b);
            Rounds(v, 2) == V(0x4d07749cdd0858e0, 0x0d52f6f62a4f59a4, 0x634cb3577b01fd3d, 0xa5224d6f55c7d9c8)
  {
    var v := V(0x7469686173716475, 0x6b617f6d656e6665, 0x6b7f62616d677361, 0x7c6d6c6a717c6d7b);
    var w := V(0x64668a929363847f, 0x4ed232083d9aa8dc, 0xf2f74892d8141a2e, 0x9290f9810552f4a8);
    hide Rounds;
    TwoRounds(v);
    assert SipRound(v) == w;
    assert SipRound(w) == V(0x4d07749cdd0858e0, 0x0d52f6f62a4f59a4, 0x634cb3577b01fd3d, 0xa5224d6f55c7d9c8);
  }

  lemma {:induction false} NextRounds()
    ensures var v := V(0x4a017198de0a59e0, 0x0d52f6f62a4f59a4, 0x634cb3577b01fd3d, 0xaa2c40635ecdd0c0);
            Rounds(v, 2) == V(0x338bbea7645fb759, 0x414fc3fb98efe374, 0xccf13ea527b9f4bd, 0x5293f5da84008f82)
  {
    var v := V(0x4a017198de0a59e0, 0x0d52f6f62a4f59a4, 0x634cb3577b01fd3d, 0xaa2c40635ecdd0c0);
    var w := V(0x557560fb6063d060, 0x4c8e675bd961133e, 0xbd3d002b1703a181, 0xfb9441179a4a7315);
    hide Rounds;
    TwoRounds(v);
    assert SipRound(v) == w;
    assert SipRound(w) == V(0x338bbea7645fb759, 0x414fc3fb98efe374, 0xccf13ea527b9f4bd, 0x5293f5da84008f82);
  }

  lemma {:induction false} LastRounds()
    ensures var v := V(0x3c85b3ab6f55be51, 0x414fc3fb98efe374, 0xccf13ea527b9f442, 0x5293f5da84008f82);
            Rounds(v, 4) == V(0xf6bcd53893fecff1, 0x54b9964c7ea0d937, 0x1b38329c099bb55a, 0x1814bb89ad7be679)
  {
    var v := V(0x3c85b3ab6f55be51, 0x414fc3fb98efe374, 0xccf13ea527b9f442, 0x5293f5da84008f82);
    var v1 := V(0xf2a55244a20e48fe, 0xac5ad16ccc3ca6e4, 0x9fe5adb0a52f393a, 0xfd41d55e88f30308);
    var v2 := V(0xb6c3fbdecc2ae4b4, 0x1638c86adc6b3cf0, 0x28b8b6ab62553d46, 0xc9465e86ec43eb95);
    var v3 := V(0x58101b167209a5e6, 0xf8792ae75b66e7dd, 0x1da14c3ec7f0b4f7, 0x7624ba8a41bc4ad9);
    hide Rounds;
    TwoRounds(v);
    assert SipRound(v) == v1;
    assert SipRound(v1) == v2;
    assert SipRound(v2) == v3;
    assert SipRound(v3) == V(0xf6bcd53893fecff1, 0x54b9964c7ea0d937, 0x1b38329c099bb55a, 0x1814bb89ad7be679);
  }

  lemma {:induction false} EightBytes(a: byte, b: byte, c: byte, d: byte, e: byte, f: byte, g: byte, h: byte)
    ensures Word([a, b, c, d, e, f, g, h])
            == WithByte(WithByte(WithByte(WithByte(Word([e, f, g, h]), AsWord(d)), AsWord(c)), AsWord(b)), AsWord(a))
    ensures Word([e, f, g, h])
            == WithByte(WithByte(WithByte(WithByte(0, AsWord(h)), AsWord(g)), AsWord(f)), AsWord(e))
  {
    hide Word, AsWord, WithByte;
    FirstOf(a, [b, c, d, e, f, g, h], [a, b, c, d, e, f, g, h]);
    FirstOf(b, [c, d, e, f, g, h], [b, c, d, e, f, g, h]);
    FirstOf(c, [d, e, f, g, h], [c, d, e, f, g, h]);
    FirstOf(d, [e, f, g, h], [d, e, f, g, h]);
    FirstOf(e, [f, g, h], [e, f, g, h]);
    FirstOf(f, [g, h], [f, g, h]);
    FirstOf(g, [h], [g, h]);
    FirstOf(h, [], [h]);
  }

  lemma {:induction false} FirstOf(b: byte, t: seq<byte>, s: seq<byte>)
    requires |t| <= 7 && s == [b] + t
    ensures Word(s) == WithByte(Word(t), AsWord(b)) && Word([]) == 0
  {
    hide AsWord, WithByte;
    assert s[1..] == t;
  }

  lemma {:induction false} TwoWords()
    ensures Word([0, 1, 2, 3, 4, 5, 6, 7]) == 0x0706050403020100
    ensures Word([8, 9, 10, 11, 12, 13, 14, 15]) == 0x0f0e0d0c0b0a0908
  {
    hide Word;
    EightBytes(0, 1, 2, 3, 4, 5, 6, 7);
    EightBytes(8, 9, 10, 11, 12, 13, 14, 15);
  }

  /** The hash given in appendix A of the paper "SipHash: a fast short-input PRF" for the message 0, 1, ..., 14 under
      the key 0, 1, ..., 15. */
  lemma {:induction false} PublishedHash()
    ensures Hash([0, 1, 2, 3, 4, 5, 6, 7, 8, 9, 10, 11, 12, 13, 14], 0x0706050403020100, 0x0f0e0d0c0b0a0908, 2, 4)
            == 0xa129ca6149be45e5
  {
    hide CompressWord, Final, Init;
    var msg: seq<byte> := [0, 1, 2, 3, 4, 5, 6, 7, 8, 9, 10, 11, 12, 13, 14];
    assert msg[..8] == [0, 1, 2, 3, 4, 5, 6, 7] && msg[8..] == [8, 9, 10, 11, 12, 13, 14];
    assert Rest(msg) == msg[8..];
    assert LastBlock(msg) == [8, 9, 10, 11, 12, 13, 14, 15];
    PublishedFirst();
    PublishedLast();
  }

  lemma {:induction false} PublishedFirst()
    ensures CompressWord(Init(0x0706050403020100, 0x0f0e0d0c0b0a0908), [0, 1, 2, 3, 4, 5, 6, 7], 2)
            == V(0x4a017198de0a59e0, 0x0d52f6f62a4f59a4, 0x634cb3577b01fd3d, 0xa5224d6f55c7d9c8)
  {
    hide Word, Rounds;
    TwoWords();
    FirstRounds();
  }

  lemma {:induction false} PublishedLast()
    ensures Final(V(0x4a017198de0a59e0, 0x0d52f6f62a4f59a4, 0x634cb3577b01fd3d, 0xa5224d6f55c7d9c8),
                  [8, 9, 10, 11, 12, 13, 14, 15], 2, 4) == 0xa129ca6149be45e5
  {
    hide Word, Rounds;
    TwoWords();
    NextRounds();
    LastRounds();
  }

  // ---- appending ----

  lemma {:induction false} AbsorbAppend(v: V, s: seq<byte>, t: seq<byte>, c: nat)
    ensures Absorb(v, s + t, c) == Absorb(Absorb(v, s, c), Rest(s) + t, c)
    ensures Rest(s + t) == Rest(Rest(s) + t)
    decreases |s|
  {
    hide CompressWord;
    if |s| >= 8 {
      assert (s + t)[..8] == s[..8] && (s + t)[8..] == s[8..] + t;
      AbsorbAppend(CompressWord(v, s[..8], c), s[8..], t, c);
    }
  }

  /** The loop of `compress` over whole blocks. */
  method CompressBlocks(v: V, data: seq<byte>, c: nat) returns (v': V, rest: seq<byte>)
    ensures v' == Absorb(v, data, c) && rest == Rest(data)
  {
    hide CompressWord;
    v', rest := v, data;
    while |rest| >= 8
      invariant Absorb(v', rest, c) == Absorb(v, data, c) && Rest(rest) == Rest(data)
      decreases |rest|
    {
      v', rest := CompressWord(v', rest[..8], c), rest[8..];
    }
  }

  lemma {:induction false} OneBlock(v: V, pend: seq<byte>, data: seq<byte>, s: nat, c: nat)
    requires s <= |data| && |pend| + s == 8
    ensures Absorb(v, pend + data, c) == Absorb(CompressWord(v, pend + data[..s], c), data[s..], c)
    ensures Rest(pend + data) == Rest(data[s..])
  {
    hide CompressWord;
    assert (pend + data)[..8] == pend + data[..s] && (pend + data)[8..] == data[s..];
  }

  class SipHash {
    const c: nat
    const d: nat
    var v: V
    var size: nat
    const buf: array<byte>
    var bufSize: nat
    ghost var v0: V
    ghost var msg: seq<byte>   // everything compressed so far

    ghost predicate Valid()
      reads this, buf
    {
      && buf.Length == 8 && bufSize < 8 && buf[..bufSize] == Rest(msg)
      && v == Absorb(v0, msg, c) && size == |msg|
    }

    constructor (c: nat, d: nat, k0: bv64, k1: bv64)
      ensures Valid() && fresh(buf) && msg == [] && v0 == Init(k0, k1) && this.c == c && this.d == d
    {
      this.c, this.d := c, d;
      v, size, bufSize := Init(k0, k1), 0, 0;
      buf := new byte[8];
      v0, msg := Init(k0, k1), [];
    }

    /** `compress`: a further fragment of any length. */
    method Compress(data: seq<byte>)
      requires Valid()
      modifies this`v, this`size, this`bufSize, this`msg, buf
      ensures Valid() && msg == old(msg) + data
    {
      hide CompressWord;
      ghost var pend := Rest(msg);
      AbsorbAppend(v0, msg, data, c);
      msg := msg + data;
      size := size + |data|;
      var rest := data;
      if bufSize > 0 {
        var s := if 8 - bufSize < |rest| then 8 - bufSize else |rest|;
        FillBuffer(bufSize, rest[..s]);
        bufSize := bufSize + s;
        assert buf[..bufSize] == pend + rest[..s];
        rest := rest[s..];
        if bufSize < 8 {
          assert pend + data[..s] == pend + data;
          return;
        }
        OneBlock(v, pend, data, s, c);
        v := CompressWord(v, buf[..8], c);
        bufSize := 0;
      } else {
        assert pend + data == data;
      }
      assert Absorb(v, rest, c) == Absorb(v0, msg, c) && Rest(rest) == Rest(msg);
      v, rest := CompressBlocks(v, rest, c);
      if |rest| > 0 {
        FillBuffer(0, rest);
        bufSize := |rest|;
      }
    }

    /** `memcpy` into the buffer. */
    method FillBuffer(off: nat, s: seq<byte>)
      requires buf.Length == 8 && off + |s| <= 8
      modifies buf
      ensures buf[..off] == old(buf[..off]) && buf[off..off + |s|] == s
      ensures buf[..off + |s|] == old(buf[..off]) + s
    {
      for i := 0 to |s|
        invariant buf[..off] == old(buf[..off]) && buf[off..off + i] == s[..i]
      {
        buf[off + i] := s[i];
      }
    }

    /** `finalize` */
    method Finalize() returns (h: bv64)
      requires Valid()
      ensures h == Final(Absorb(v0, msg, c), LastBlock(msg), c, d)
    {
      hide CompressWord, Final, Absorb, Rest;
      var last := buf[..bufSize] + seq(7 - bufSize, i => 0) + [LowByte(size)];
      assert last == LastBlock(msg);
      h := Final(v, last, c, d);
    }
  }

  function Concat(frags: seq<seq<byte>>): seq<byte> {
    if frags == [] then [] else frags[0] + Concat(frags[1..])
  }

  lemma {:induction false} NextFragment(msg: seq<byte>, frags: seq<seq<byte>>, i: nat)
    requires i < |frags|
    ensures msg + Concat(frags[i..]) == msg + frags[i] + Concat(frags[i + 1..])
  {
    assert frags[i..][0] == frags[i] && frags[i..][1..] == frags[i + 1..];
  }

  /** However the message is cut, the hash is that of the whole. */
  method HashFragments(frags: seq<seq<byte>>, k0: bv64, k1: bv64, c: nat, d: nat) returns (h: bv64)
    ensures h == Hash(Concat(frags), k0, k1, c, d)
  {
    hide Final, Absorb, LastBlock, Rest;
    var sh := new SipHash(c, d, k0, k1);
    for i := 0 to |frags|
      invariant sh.Valid() && sh.v0 == Init(k0, k1) && fresh(sh) && fresh(sh.buf)
      invariant sh.msg + Concat(frags[i..]) == Concat(frags)
    {
      NextFragment(sh.msg, frags, i);
      sh.Compress(frags[i]);
    }
    assert sh.msg == Concat(frags) by { assert frags[|frags|..] == []; }
    h := sh.Finalize();
  }
}
