/** Aligned splitting of an address range (src/address_util.hpp). */
module AddressUtil {
  import opened Arithmetic

  const MAX: nat := 0x8000_0000   // 2^31, the largest power of two in 32 bits

  function Pow2(k: nat): (r: nat)
    ensures r > 0
  {
    if k == 0 then 1 else 2 * Pow2(k - 1)
  }

  ghost predicate IsPow2(n: nat) {
    exists k: nat :: n == Pow2(k)
  }

  /** An IO whose size is a power of two that divides its address. */
  ghost predicate Aligned(addr: nat, n: nat) {
    IsPow2(n) && n <= MAX && Divides(n, addr)
  }

  // ---- powers of two ----

  lemma {:induction false} Pow2Divides(i: nat, j: nat)
    requires i <= j
    ensures Divides(Pow2(i), Pow2(j)) && Pow2(i) <= Pow2(j)
  {
    hide Divides;
    if i < j {
      Pow2Divides(i, j - 1);
      DividesMultiple(Pow2(i), Pow2(j - 1), 2);
    } else {
      DividesProduct(Pow2(i), 1);
    }
  }

  lemma {:induction false} Pow2Grows(i: nat, j: nat)
    requires i < j
    ensures Pow2(i) < Pow2(j)
  {
    if i < j - 1 { Pow2Grows(i, j - 1); }
  }

  /** The smaller of two powers of two divides the larger, and all it divides. */
  lemma {:induction false} SmallerDivides(n: nat, m: nat, x: nat)
    requires IsPow2(n) && IsPow2(m) && n <= m && Divides(m, x)
    ensures n > 0 && Divides(n, m) && Divides(n, x)
  {
    hide Divides;
    var i: nat :| n == Pow2(i);
    var j: nat :| m == Pow2(j);
    hide Pow2;
    if j < i { Pow2Grows(j, i); }
    Pow2Divides(i, j);
    DividesTrans(n, m, x);
  }

  /** Two aligned ranges that share an address are nested. */
  lemma {:induction false} NestedOrDisjoint(a: nat, n: nat, b: nat, m: nat)
    requires Aligned(a, n) && Aligned(b, m) && a < b + m && b < a + n
    ensures (b <= a && a + n <= b + m) || (a <= b && b + m <= a + n)
  {
    if n <= m {
      Within(a, n, b, m);
    } else {
      Within(b, m, a, n);
    }
  }

  lemma {:induction false} Within(a: nat, n: nat, b: nat, m: nat)
    requires Aligned(a, n) && Aligned(b, m) && n <= m && a < b + m && b < a + n
    ensures b <= a && a + n <= b + m
  {
    hide Divides, IsPow2;
    SmallerDivides(n, m, b);
    DividesSum(n, b, m);
    if a < b { MultiplesApart(n, a, b); }
    MultiplesApart(n, a, b + m);
  }

  // ---- the helper functions ----

  /** `getAlignedSize`: the largest power of two, up to 2^31, that divides v. */
  method GetAlignedSize(v0: nat) returns (s: nat)
    ensures Aligned(v0, s) && forall t: nat :: Aligned(v0, t) ==> t <= s
  {
    MaxIsPow2();
    if v0 == 0 {
      return MAX;
    }
    var v, c := v0, 0;
    while v % 2 == 0
      invariant v > 0 && v * Pow2(c) == v0
      decreases v
    {
      Halve(v, Pow2(c));
      v, c := v / 2, c + 1;
    }
    if c >= 32 {
      PowerOf(v, c, 31);
      return MAX;
    }
    PowerOf(v, c, c);
    Pow2Divides(c, 31);
    forall t: nat | Aligned(v0, t) ensures t <= Pow2(c) {
      OddPart(v, c, t);
    }
    s := Pow2(c);
  }

  lemma {:induction false} Halve(v: nat, p: nat)
    requires v % 2 == 0
    ensures (v / 2) * (2 * p) == v * p
  {
    MulSwap(v / 2, 2, p);
    MulSum(p, v / 2, v / 2);
  }

  lemma {:induction false} PowerOf(v: nat, c: nat, k: nat)
    requires k <= c
    ensures Divides(Pow2(k), v * Pow2(c))
  {
    hide Divides;
    Pow2Divides(k, c);
    DividesMultiple(Pow2(k), Pow2(c), v);
  }

  lemma {:induction false} MaxIsPow2()
    ensures MAX == Pow2(31) && IsPow2(MAX)
  {
    assert Pow2(8) == 256;
    assert Pow2(16) == 65536;
    assert Pow2(24) == 16777216;
    assert Pow2(31) == MAX;
  }

  /** No power of two above 2^c divides an odd multiple of 2^c. */
  lemma {:induction false} OddPart(v: nat, c: nat, t: nat)
    requires v % 2 == 1 && IsPow2(t) && Divides(t, v * Pow2(c))
    ensures t <= Pow2(c)
  {
    hide Divides;
    var k: nat :| t == Pow2(k);
    if c < k {
      Pow2Divides(c + 1, k);
      MulNonNegative(v, Pow2(c));
      DividesTrans(Pow2(c + 1), t, v * Pow2(c));
      EvenMultiple(v, Pow2(c));
    } else {
      Pow2Divides(k, c);
    }
  }

  lemma {:induction false} EvenMultiple(v: nat, p: nat)
    requires p > 0 && Divides(2 * p, v * p)
    ensures v % 2 == 0
  {
    hide Divides;
    var q := Quotient(2 * p, v * p);
    MulSwap(2, p, q);
    assert (2 * p) * q == p * (2 * q);
    MulCancel(p, v, 2 * q);
  }

  ghost predicate Between(s: nat, p: nat, s0: nat) {
    s * p <= s0 < (s + 1) * p
  }

  /** `getMaxAlignedSize`: the largest power of two not greater than s. */
  method GetMaxAlignedSize(s0: nat) returns (r: nat)
    ensures s0 == 0 ==> r == 0
    ensures s0 > 0 ==> IsPow2(r) && r <= s0 && forall t: nat :: IsPow2(t) && t <= s0 ==> t <= r
  {
    hide Between;
    if s0 == 0 {
      return 0;
    }
    var s, c := s0, 0;
    assert Between(s, Pow2(c), s0) by { AllOnes(s0); }
    while s != 0
      invariant Between(s, Pow2(c), s0)
      invariant s == 0 ==> c > 0 && Pow2(c - 1) <= s0
      decreases s
    {
      HalfStep(s, Pow2(c), s0);
      s, c := s / 2, c + 1;
    }
    r := Pow2(c - 1);
    assert s0 < Pow2(c) by { ZeroTimes(Pow2(c), s0); }
    forall t: nat | IsPow2(t) && t <= s0 ensures t <= r {
      BelowNext(t, c);
    }
  }

  lemma {:induction false} AllOnes(s0: nat)
    ensures Between(s0, 1, s0)
  {
  }

  lemma {:induction false} ZeroTimes(p: nat, s0: nat)
    requires Between(0, p, s0)
    ensures s0 < p
  {
  }

  lemma {:induction false} BelowNext(t: nat, c: nat)
    requires IsPow2(t) && t < Pow2(c) && c > 0
    ensures t <= Pow2(c - 1)
  {
    var k: nat :| t == Pow2(k);
    if c <= k { Pow2Divides(c, k); } else { Pow2Divides(k, c - 1); }
  }

  lemma {:induction false} HalfStep(s: nat, p: nat, s0: nat)
    requires s > 0 && p > 0 && Between(s, p, s0)
    ensures Between(s / 2, 2 * p, s0) && p <= s0
  {
    var h := s / 2;
    MulSwap(2, h, p);
    MulSwap(2, h + 1, p);
    MulMonotone(p, 2 * h, s);
    MulMonotone(p, s + 1, 2 * (h + 1));
    MulAtLeast(p, s);
  }

  function PopCount(n: nat): nat {
    if n == 0 then 0 else n % 2 + PopCount(n / 2)
  }

  /** `isAlignedSize`: one bit set means a power of two. */
  lemma {:induction false} OneBitIsPow2(n: nat)
    ensures PopCount(n) == 1 <==> IsPow2(n)
  {
    if n > 0 {
      OneBitIsPow2(n / 2);
      if n % 2 == 0 {
        if IsPow2(n / 2) { var k: nat :| n / 2 == Pow2(k); assert n == Pow2(k + 1); }
        if IsPow2(n) { var k: nat :| n == Pow2(k); assert n / 2 == Pow2(k - 1); }
      } else {
        if n == 1 { assert 1 == Pow2(0); }
        if IsPow2(n) { var k: nat :| n == Pow2(k); }
        NoBits(n / 2);
      }
    }
  }

  /** `isAlignedIo`, with s the aligned size of the address. */
  lemma {:induction false} IsAlignedIoIff(addr: nat, s: nat, n: nat)
    requires Aligned(addr, s) && forall t: nat :: Aligned(addr, t) ==> t <= s
    ensures n <= s && PopCount(n) == 1 <==> Aligned(addr, n)
  {
    OneBitIsPow2(n);
    if n <= s && IsPow2(n) { SmallerAligned(addr, s, n); }
  }

  lemma {:induction false} NoBits(n: nat)
    ensures PopCount(n) == 0 <==> n == 0
  {
    if n > 0 { NoBits(n / 2); }
  }

  // ---- splitting ----

  /** The largest aligned piece that starts at a, in a range of n blocks. */
  ghost predicate IsPiece(a: nat, n: nat, cap: nat, s: nat) {
    && Aligned(a, s) && s <= n && s <= cap
    && forall t: nat :: Aligned(a, t) && t <= n && t <= cap ==> t <= s
  }

  /** Pieces that cover n blocks from a, one after the other, each aligned and within the cap. */
  ghost predicate Tiles(v: seq<nat>, a: nat, n: nat, cap: nat)
    decreases |v|
  {
    if v == [] then n == 0
    else Aligned(a, v[0]) && v[0] <= n && v[0] <= cap && Tiles(v[1..], a + v[0], n - v[0], cap)
  }

  /** Like `Tiles`, each piece the largest possible. */
  ghost predicate Greedy(v: seq<nat>, a: nat, n: nat, cap: nat)
    decreases |v|
  {
    if v == [] then n == 0
    else IsPiece(a, n, cap, v[0]) && Greedy(v[1..], a + v[0], n - v[0], cap)
  }

  /** One round of the loop. */
  method NextPiece(a: nat, n: nat, cap: nat) returns (s: nat)
    requires n > 0 && (cap == 0 || (IsPow2(cap) && cap <= MAX))
    ensures IsPiece(a, n, if cap == 0 then MAX else cap, s)
  {
    s := GetAlignedSize(a);
    ghost var whole := s;
    if s > n {
      s := GetMaxAlignedSize(n);
    }
    ghost var fitting := s;
    assert Aligned(a, s) by { SmallerAligned(a, whole, s); }
    if cap > 0 && cap < s {
      s := cap;
    }
    SmallerAligned(a, fitting, s);
  }

  lemma {:induction false} SmallerAligned(a: nat, n: nat, s: nat)
    requires Aligned(a, n) && IsPow2(s) && s <= n
    ensures Aligned(a, s)
  {
    SmallerDivides(s, n, a);
  }

  /** `splitIoToAligned`; a maximum of 0 means no limit but that of the type. */
  method SplitIoToAligned(ioAddress: nat, ioBlocks: nat, maxIoBlocks: nat) returns (v: seq<nat>, cap: nat)
    requires maxIoBlocks <= 0xffff_ffff
    ensures maxIoBlocks == 0 ==> cap == MAX
    ensures maxIoBlocks > 0 ==> IsPow2(cap) && cap <= maxIoBlocks
    ensures maxIoBlocks > 0 ==> forall t: nat :: IsPow2(t) && t <= maxIoBlocks ==> t <= cap
    ensures Greedy(v, ioAddress, ioBlocks, cap)
  {
    var max := GetMaxAlignedSize(maxIoBlocks);
    cap := if max == 0 then MAX else max;
    if max > 0 { CapFits(max); }
    v := [];
    var a, n := ioAddress, ioBlocks;
    while n > 0
      invariant GreedyUpTo(v, ioAddress, ioBlocks, cap, a, n)
      decreases n
    {
      var s := NextPiece(a, n, max);
      OneMore(v, ioAddress, ioBlocks, cap, a, n, s);
      v, a, n := v + [s], a + s, n - s;
    }
    NoMore(v, ioAddress, ioBlocks, cap, a);
  }

  /** The pieces so far, with n blocks from a still to split. */
  ghost predicate GreedyUpTo(v: seq<nat>, a0: nat, n0: nat, cap: nat, a: nat, n: nat)
    decreases |v|
  {
    if v == [] then a == a0 && n == n0
    else IsPiece(a0, n0, cap, v[0]) && GreedyUpTo(v[1..], a0 + v[0], n0 - v[0], cap, a, n)
  }

  lemma {:induction false} OneMore(v: seq<nat>, a0: nat, n0: nat, cap: nat, a: nat, n: nat, s: nat)
    requires GreedyUpTo(v, a0, n0, cap, a, n) && IsPiece(a, n, cap, s)
    ensures GreedyUpTo(v + [s], a0, n0, cap, a + s, n - s)
    decreases |v|
  {
    if v == [] {
      assert (v + [s])[1..] == [];
    } else {
      OneMore(v[1..], a0 + v[0], n0 - v[0], cap, a, n, s);
      assert (v + [s])[1..] == v[1..] + [s];
    }
  }

  lemma {:induction false} NoMore(v: seq<nat>, a0: nat, n0: nat, cap: nat, a: nat)
    requires GreedyUpTo(v, a0, n0, cap, a, 0)
    ensures Greedy(v, a0, n0, cap)
    decreases |v|
  {
    if v != [] { NoMore(v[1..], a0 + v[0], n0 - v[0], cap, a); }
  }

  lemma {:induction false} CapFits(max: nat)
    requires IsPow2(max) && max <= 0xffff_ffff
    ensures max <= MAX
  {
    var k: nat :| max == Pow2(k);
    MaxIsPow2();
    if 32 <= k { Pow2Divides(32, k); } else { Pow2Divides(k, 31); }
  }

  /** The pieces tile the range. */
  lemma {:induction false} GreedyTiles(v: seq<nat>, a: nat, n: nat, cap: nat)
    requires Greedy(v, a, n, cap)
    ensures Tiles(v, a, n, cap)
    decreases |v|
  {
    if v != [] { GreedyTiles(v[1..], a + v[0], n - v[0], cap); }
  }

  function Sum(v: seq<nat>): nat {
    if v == [] then 0 else v[0] + Sum(v[1..])
  }

  /** A tiling has a boundary wherever an aligned range, not shorter than the tiles that start with it, ends. */
  lemma {:induction false} CutAt(t: seq<nat>, a: nat, n: nat, cap: nat, start: nat, s: nat) returns (k: nat)
    requires Tiles(t, a, n, cap) && Aligned(start, s) && start <= a <= start + s <= a + n
    requires a == start ==> t == [] || t[0] <= s
    ensures k <= |t| && a + Sum(t[..k]) == start + s
    ensures Tiles(t[k..], start + s, a + n - (start + s), cap)
    ensures a < start + s ==> k > 0
    decreases |t|
  {
    if a == start + s {
      k := 0;
      assert t[0..] == t && t[..0] == [];
    } else {
      var p := t[0];
      if start + s < a + p {
        NestedOrDisjoint(a, p, start, s);
      }
      var r := CutAt(t[1..], a + p, n - p, cap, start, s);
      k := r + 1;
      assert t[..k][0] == p && t[..k][1..] == t[1..][..r];
      assert t[k..] == t[1..][r..];
    }
  }

  /** Every other aligned tiling under the same cap has the boundaries of this one, so it is made of at least as
      many pieces: piece j of the split is itself tiled by pieces of the other. */
  lemma {:induction false} SplitIsCoarsest(v: seq<nat>, t: seq<nat>, a: nat, n: nat, cap: nat)
    requires Greedy(v, a, n, cap) && Tiles(t, a, n, cap)
    ensures |v| <= |t|
    ensures forall j :: 0 <= j <= |v| ==> IsCut(t, Sum(v[..j]))
    decreases |v|
  {
    if v == [] {
      assert t[..0] == [];
      assert IsCut(t, 0);
    } else {
      var s := v[0];
      var k := CutAt(t, a, n, cap, a, s);
      SplitIsCoarsest(v[1..], t[k..], a + s, n - s, cap);
      forall j | 0 <= j <= |v| ensures IsCut(t, Sum(v[..j])) {
        if j == 0 {
          assert t[..0] == [];
        } else {
          assert v[..j][1..] == v[1..][..j - 1];
          CutLater(t, k, s, Sum(v[1..][..j - 1]));
        }
      }
    }
  }

  ghost predicate IsCut(t: seq<nat>, x: nat) {
    exists k :: 0 <= k <= |t| && Sum(t[..k]) == x
  }

  lemma {:induction false} CutLater(t: seq<nat>, k: nat, s: nat, x: nat)
    requires k <= |t| && Sum(t[..k]) == s && IsCut(t[k..], x)
    ensures IsCut(t, s + x)
  {
    var l :| 0 <= l <= |t[k..]| && Sum(t[k..][..l]) == x;
    assert t[..k] + t[k..][..l] == t[..k + l];
    SumConcat(t[..k], t[k..][..l]);
  }

  lemma {:induction false} SumConcat(v: seq<nat>, w: seq<nat>)
    ensures Sum(v + w) == Sum(v) + Sum(w)
  {
    if v == [] {
      assert v + w == w;
    } else {
      assert (v + w)[1..] == v[1..] + w;
      SumConcat(v[1..], w);
    }
  }
}
