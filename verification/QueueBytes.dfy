/** Byte layout of a queue file (include/queue_file.hpp) and the checksum of include/checksum.hpp. */
module QueueBytes {
  import opened BlockWrites
  import opened RangeUtil

  type word = x: int | 0 <= x < 0x1_0000_0000

  function Le32(n: word): (s: seq<byte>)
    ensures |s| == 4
  {
    [LowByte(n), LowByte(n / 256), LowByte(n / 65536), LowByte(n / 16777216)]
  }

  function LowByte(n: nat): byte {
    var r: int := n % 256;
    r
  }

  function FromLe32(s: seq<byte>): word
    requires |s| == 4
  {
    s[0] as int + 256 * (s[1] as int) + 65536 * (s[2] as int) + 16777216 * (s[3] as int)
  }

  lemma {:induction false} Le32RoundTrip(n: word)
    ensures FromLe32(Le32(n)) == n
  {
    var a: nat, b: nat, c: nat := n / 256, n / 65536, n / 16777216;
    assert b == a / 256 && c == b / 256 && c % 256 == c;
  }

  function Low(n: nat): word { n % 0x1_0000_0000 }

  function High(n: nat): word { n / 0x1_0000_0000 % 0x1_0000_0000 }

  function Le64(n: nat): (s: seq<byte>)
    ensures |s| == 8
  {
    Le32(Low(n)) + Le32(High(n))
  }

  function FromLe64(s: seq<byte>): nat
    requires |s| == 8
  {
    FromLe32(s[..4]) + 0x1_0000_0000 * FromLe32(s[4..])
  }

  lemma {:induction false} Le64RoundTrip(n: nat)
    requires n < 0x1_0000_0000_0000_0000
    ensures FromLe64(Le64(n)) == n
  {
    Le32RoundTrip(Low(n));
    Le32RoundTrip(High(n));
    assert Le64(n)[..4] == Le32(Low(n)) && Le64(n)[4..] == Le32(High(n));
  }

  // ---- checksum ----

  function AddWord(a: word, b: word): word {
    if a + b < 0x1_0000_0000 then a + b else a + b - 0x1_0000_0000
  }

  /** `~csum + 1` */
  function Finish(csum: word): word {
    if csum == 0 then 0 else 0x1_0000_0000 - csum
  }

  function Padded(s: seq<byte>): (r: seq<byte>)
    requires |s| < 4
    ensures |r| == 4
  {
    s + seq(4 - |s|, i => 0)
  }

  function Partial(s: seq<byte>, csum: word): word {
    if s == [] then csum
    else if |s| < 4 then AddWord(csum, FromLe32(Padded(s)))
    else Partial(s[4..], AddWord(csum, FromLe32(s[..4])))
  }

  function Checksum(s: seq<byte>, salt: word): word {
    Finish(Partial(s, salt))
  }

  /** `checksumPartial`: its loop adds the words one by one. */
  method ChecksumPartial(data: seq<byte>, csum0: word) returns (csum: word)
    ensures csum == Partial(data, csum0)
  {
    csum := csum0;
    var p := 0;
    while 4 <= |data| - p
      invariant 0 <= p <= |data| && Partial(data[p..], csum) == Partial(data, csum0)
    {
      assert data[p..][..4] == data[p..p + 4] && data[p..][4..] == data[p + 4..];
      csum := AddWord(csum, FromLe32(data[p..p + 4]));
      p := p + 4;
    }
    if p < |data| {
      csum := AddWord(csum, FromLe32(Padded(data[p..])));
    }
  }

  /** The words may be added in several calls, cut at any multiple of four. */
  lemma {:induction false} PartialConcat(s: seq<byte>, t: seq<byte>, csum: word)
    requires |s| % 4 == 0
    ensures Partial(s + t, csum) == Partial(t, Partial(s, csum))
  {
    if s == [] {
      assert s + t == t;
    } else {
      assert (s + t)[..4] == s[..4] && (s + t)[4..] == s[4..] + t;
      PartialConcat(s[4..], t, AddWord(csum, FromLe32(s[..4])));
    }
  }

  lemma {:induction false} PartialWord(w: word, t: seq<byte>, csum: word)
    ensures Partial(Le32(w) + t, csum) == Partial(t, AddWord(csum, w))
  {
    var s := Le32(w) + t;
    assert s[..4] == Le32(w) && s[4..] == t;
    Le32RoundTrip(w);
  }

  /** Starting from another value shifts the sum by the difference. */
  lemma {:induction false} PartialShift(s: seq<byte>, a: word, b: word)
    ensures Partial(s, AddWord(a, b)) == AddWord(Partial(s, a), b)
  {
    if 4 <= |s| {
      PartialShift(s[4..], AddWord(a, FromLe32(s[..4])), b);
    }
  }

  // ---- what the checksum detects ----

  lemma {:induction false} WordsDiffer(s: seq<byte>, t: seq<byte>)
    requires |s| == 4 && |t| == 4 && s != t
    ensures FromLe32(s) != FromLe32(t)
  {
    if s[3] == t[3] && s[2] == t[2] && s[1] == t[1] {
      assert s[0] != t[0];
    }
  }

  lemma {:induction false} PaddedDiffer(s: seq<byte>, t: seq<byte>)
    requires |s| == |t| < 4 && s != t
    ensures FromLe32(Padded(s)) != FromLe32(Padded(t))
  {
    assert Padded(s)[..|s|] == s && Padded(t)[..|t|] == t;
    WordsDiffer(Padded(s), Padded(t));
  }

  /** Another first word, the same rest. */
  lemma {:induction false} FirstWordCounts(s: seq<byte>, t: seq<byte>, rest: seq<byte>, csum: word)
    requires 0 < |s| == |t| <= 4 && s != t && (|s| < 4 ==> rest == [])
    ensures Partial(s + rest, csum) != Partial(t + rest, csum)
  {
    if |s| < 4 {
      assert s + rest == s && t + rest == t;
      PaddedDiffer(s, t);
    } else {
      assert (s + rest)[..4] == s && (s + rest)[4..] == rest && (t + rest)[..4] == t && (t + rest)[4..] == rest;
      WordsDiffer(s, t);
      PartialShift(rest, csum, FromLe32(s));
      PartialShift(rest, csum, FromLe32(t));
    }
  }

  /** A change within one word, wherever it is, changes the sum. */
  lemma {:induction false} OneWordCounts(before: seq<byte>, s: seq<byte>, t: seq<byte>, rest: seq<byte>, csum: word)
    requires |before| % 4 == 0 && 0 < |s| == |t| <= 4 && s != t && (|s| < 4 ==> rest == [])
    ensures Partial(before + (s + rest), csum) != Partial(before + (t + rest), csum)
  {
    hide Partial;
    PartialConcat(before, s + rest, csum);
    PartialConcat(before, t + rest, csum);
    FirstWordCounts(s, t, rest, Partial(before, csum));
  }

  // ---- file header ----

  const PREAMBLE: word := 0x119d83a7

  datatype Header = Header(preamble: word, checksum: word, salt: word, beginOffset: nat, endOffset: nat)

  /** A packed `QueueFileHeader`. */
  function Encode(h: Header): (s: seq<byte>)
    ensures |s| == 28
  {
    Le32(h.preamble) + Le32(h.checksum) + Le32(h.salt) + Le64(h.beginOffset) + Le64(h.endOffset)
  }

  function Decode(s: seq<byte>): Header
    requires |s| == 28
  {
    Header(FromLe32(s[..4]), FromLe32(s[4..8]), FromLe32(s[8..12]), FromLe64(s[12..20]), FromLe64(s[20..28]))
  }

  lemma {:induction false} HeaderRoundTrip(h: Header)
    requires h.beginOffset < 0x1_0000_0000_0000_0000 && h.endOffset < 0x1_0000_0000_0000_0000
    ensures Decode(Encode(h)) == h
  {
    var s := Encode(h);
    assert s[..4] == Le32(h.preamble) && s[4..8] == Le32(h.checksum) && s[8..12] == Le32(h.salt);
    assert s[12..20] == Le64(h.beginOffset) && s[20..28] == Le64(h.endOffset);
    Le32RoundTrip(h.preamble);
    Le32RoundTrip(h.checksum);
    Le32RoundTrip(h.salt);
    Le64RoundTrip(h.beginOffset);
    Le64RoundTrip(h.endOffset);
  }

  /** `isValidFileHeader` on the bytes of a header. */
  predicate IsValidHeader(s: seq<byte>)
    requires |s| == 28
  {
    FromLe32(s[..4]) == PREAMBLE && Checksum(s, 0) == 0
  }

  /** `updateFileHeaderChecksum` */
  function WithChecksum(h: Header): Header {
    h.(checksum := Checksum(Encode(h.(checksum := 0)), 0))
  }

  lemma {:induction false} HeaderSum(h: Header)
    ensures Partial(Encode(h), 0) == AddWord(Partial(Encode(h.(checksum := 0)), 0), h.checksum)
  {
    hide Le32, Le64, Partial;
    var rest := Le32(h.salt) + Le64(h.beginOffset) + Le64(h.endOffset);
    var z := h.(checksum := 0);
    assert Encode(h) == Le32(h.preamble) + (Le32(h.checksum) + rest);
    assert Encode(z) == Le32(h.preamble) + (Le32(0) + rest);
    PartialWord(h.preamble, Le32(h.checksum) + rest, 0);
    PartialWord(h.preamble, Le32(0) + rest, 0);
    PartialWord(h.checksum, rest, AddWord(0, h.preamble));
    PartialWord(0, rest, AddWord(0, h.preamble));
    PartialShift(rest, h.preamble, h.checksum);
  }

  /** A header whose checksum was updated sums to zero. */
  lemma {:induction false} UpdatedHeaderIsValid(h: Header)
    requires h.preamble == PREAMBLE
    ensures Partial(Encode(WithChecksum(h)), 0) == 0
    ensures IsValidHeader(Encode(WithChecksum(h)))
  {
    hide Partial;
    HeaderSum(WithChecksum(h));
    assert WithChecksum(h).(checksum := 0) == h.(checksum := 0);
    var s := Encode(WithChecksum(h));
    assert s[..4] == Le32(h.preamble);
    Le32RoundTrip(h.preamble);
  }

  /** A header is accepted exactly if it has the preamble and the checksum that an update would give it. */
  lemma {:induction false} AcceptedIff(h: Header)
    ensures IsValidHeader(Encode(h)) <==> h.preamble == PREAMBLE && h == WithChecksum(h)
  {
    hide Partial, Encode, Le32;
    HeaderSum(h);
    FirstWordOf(h);
  }

  lemma {:induction false} FirstWordOf(h: Header)
    ensures FromLe32(Encode(h)[..4]) == h.preamble
  {
    hide FromLe32;
    assert Encode(h)[..4] == Le32(h.preamble);
    Le32RoundTrip(h.preamble);
  }

  /** Word m of the seven of a header copy. */
  function WordOf(s: seq<byte>, m: nat): seq<byte>
    requires |s| == 28 && m < 7
  {
    s[4 * m..4 * m + 4]
  }

  /** All words but word m are the same. */
  ghost predicate SameBut(s: seq<byte>, t: seq<byte>, m: nat) {
    |s| == 28 && |t| == 28 && m < 7 && forall i: nat :: i < 7 && i != m ==> WordOf(s, i) == WordOf(t, i)
  }

  lemma {:induction false} SameButParts(s: seq<byte>, t: seq<byte>, m: nat)
    requires SameBut(s, t, m)
    ensures s[..4 * m] == t[..4 * m] && s[4 * m + 4..] == t[4 * m + 4..]
  {
    forall x: nat | x < 28 && x / 4 != m ensures s[x] == t[x] {
      assert WordOf(s, x / 4)[x % 4] == s[x] && WordOf(t, x / 4)[x % 4] == t[x];
    }
  }

  lemma {:induction false} ThreeParts(s: seq<byte>, a: nat, b: nat)
    requires a <= b <= |s|
    ensures s == s[..a] + (s[a..b] + s[b..])
  {
  }

  /** Two copies that differ in one word have different sums. */
  lemma {:induction false} OneWordOff(s: seq<byte>, t: seq<byte>, m: nat)
    requires SameBut(s, t, m) && s != t
    ensures Partial(s, 0) != Partial(t, 0)
  {
    hide Partial;
    SameButParts(s, t, m);
    var before, rest := s[..4 * m], s[4 * m + 4..];
    ThreeParts(s, 4 * m, 4 * m + 4);
    ThreeParts(t, 4 * m, 4 * m + 4);
    OneWordCounts(before, WordOf(s, m), WordOf(t, m), rest, 0);
  }

  /** A copy damaged in one word is refused. */
  lemma {:induction false} DamagedHeaderRefused(h: Header, s: seq<byte>, m: nat)
    requires h.preamble == PREAMBLE && SameBut(s, Encode(WithChecksum(h)), m) && s != Encode(WithChecksum(h))
    ensures !IsValidHeader(s)
  {
    hide Partial, SameBut;
    UpdatedHeaderIsValid(h);
    OneWordOff(s, Encode(WithChecksum(h)), m);
  }

  /** Every word is the old or the new one. */
  ghost predicate Mixed(was: seq<byte>, now: seq<byte>, s: seq<byte>) {
    && |was| == 28 && |now| == 28 && |s| == 28
    && forall i: nat :: i < 7 ==> WordOf(s, i) == WordOf(was, i) || WordOf(s, i) == WordOf(now, i)
  }

  /** Old and new copy differ at most in the words i, j and k. */
  ghost predicate ThreeChange(was: seq<byte>, now: seq<byte>, i: nat, j: nat, k: nat) {
    && |was| == 28 && |now| == 28 && i < 7 && j < 7 && k < 7
    && forall m: nat :: m < 7 && m != i && m != j && m != k ==> WordOf(was, m) == WordOf(now, m)
  }

  /** The seven words of a header. */
  lemma {:induction false} HeaderWords(h: Header, m: nat)
    requires m < 7
    ensures WordOf(Encode(h), m) == match m
            case 0 => Le32(h.preamble) case 1 => Le32(h.checksum) case 2 => Le32(h.salt)
            case 3 => Le32(Low(h.beginOffset)) case 4 => Le32(High(h.beginOffset))
            case 5 => Le32(Low(h.endOffset)) case _ => Le32(High(h.endOffset))
  {
    hide Le32;
    var s := Encode(h);
    assert s[0..4] == Le32(h.preamble) && s[4..8] == Le32(h.checksum) && s[8..12] == Le32(h.salt);
    assert s[12..16] == Le32(Low(h.beginOffset)) && s[16..20] == Le32(High(h.beginOffset));
    assert s[20..24] == Le32(Low(h.endOffset)) && s[24..28] == Le32(High(h.endOffset));
  }

  /** Headers with one salt and offsets in the same 4 GiB differ in the checksum and the low words of the offsets. */
  lemma {:induction false} HeadersInOneSegment(h: Header, h': Header)
    requires h.preamble == h'.preamble && h.salt == h'.salt
    requires High(h.beginOffset) == High(h'.beginOffset) && High(h.endOffset) == High(h'.endOffset)
    ensures ThreeChange(Encode(h), Encode(h'), 1, 3, 5)
  {
    hide Le32, Encode, WordOf, High;
    forall m: nat | m < 7 && m != 1 && m != 3 && m != 5 ensures WordOf(Encode(h), m) == WordOf(Encode(h'), m) {
      HeaderWords(h, m);
      HeaderWords(h', m);
    }
  }

  /** A copy that is partly old and partly new, where at most three words change, is off by one word from one of the
      two; so it is refused unless it is one of them. */
  lemma {:induction false} MixedCopyRefused(was: seq<byte>, now: seq<byte>, s: seq<byte>, i: nat, j: nat, k: nat)
    requires Mixed(was, now, s) && ThreeChange(was, now, i, j, k) && Partial(was, 0) == 0 && Partial(now, 0) == 0
    ensures s == was || s == now || !IsValidHeader(s)
  {
    hide Partial, WordOf, FromLe32;
    if s != was && s != now {
      var a, b, c := WordOf(s, i) == WordOf(was, i), WordOf(s, j) == WordOf(was, j), WordOf(s, k) == WordOf(was, k);
      if (a && b) || (a && c) || (b && c) {
        var m := if a && b then k else if a && c then j else i;
        assert SameBut(was, s, m);
        OneWordOff(was, s, m);
      } else {
        var m := if a then i else if b then j else k;
        assert SameBut(now, s, m);
        OneWordOff(now, s, m);
      }
    }
  }
}
