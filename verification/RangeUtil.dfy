/** Range predicates of include/range_util.hpp, with their 32-bit size parameters. */
module RangeUtil {
  const TWO32: nat := 0x1_0000_0000

  /** Conversion to `uint32_t`. */
  function Low32(size: nat): nat {
    if size < TWO32 then size else size % TWO32
  }

  /** The size arguments are `uint32_t`, so a wider size is truncated on the way in. */
  predicate IsOverlapped(addr0: nat, size0: nat, addr1: nat, size1: nat) {
    addr0 < addr1 + Low32(size1) && addr1 < addr0 + Low32(size0)
  }

  predicate IsOverwritten(addr0: nat, size0: nat, addr1: nat, size1: nat) {
    addr1 <= addr0 && addr0 + Low32(size0) <= addr1 + Low32(size1)
  }

  /** An address lies in both half-open ranges. */
  predicate SharesByte(addr0: nat, size0: nat, addr1: nat, size1: nat, a: nat) {
    addr0 <= a < addr0 + size0 && addr1 <= a < addr1 + size1
  }

  lemma {:induction false} OverlapMeansSharedByte(addr0: nat, size0: nat, addr1: nat, size1: nat)
    requires 0 < size0 < TWO32 && 0 < size1 < TWO32
    ensures IsOverlapped(addr0, size0, addr1, size1)
       <==> exists a: nat :: SharesByte(addr0, size0, addr1, size1, a)
  {
    if IsOverlapped(addr0, size0, addr1, size1) {
      var a := if addr0 < addr1 then addr1 else addr0;
      assert SharesByte(addr0, size0, addr1, size1, a);
    }
  }

  /** The test for a complete rewrite holds exactly when the second range covers the first. */
  lemma {:induction false} OverwrittenMeansCovered(addr0: nat, size0: nat, addr1: nat, size1: nat)
    requires 0 < size0 < TWO32 && 0 < size1 < TWO32
    ensures IsOverwritten(addr0, size0, addr1, size1)
       <==> forall a: nat :: addr0 <= a < addr0 + size0 ==> SharesByte(addr0, size0, addr1, size1, a)
  {
    if forall a: nat :: addr0 <= a < addr0 + size0 ==> SharesByte(addr0, size0, addr1, size1, a) {
      assert SharesByte(addr0, size0, addr1, size1, addr0);
      assert SharesByte(addr0, size0, addr1, size1, addr0 + size0 - 1);
    }
  }

  /** A range of 2^32 bytes counts as empty, and so overlaps nothing, not even its own first byte. */
  lemma {:induction false} OverlapTestFails()
    ensures SharesByte(0, TWO32, 0, 1, 0) && !IsOverlapped(0, TWO32, 0, 1)
  {
  }

  /** The overlap test is right for every pair of positions exactly when both sizes fit in 32 bits. */
  lemma {:induction false} OverlapTestExactWhen32Bit(size0: nat, size1: nat)
    requires 0 < size0 && 0 < size1
    ensures (forall addr0: nat, addr1: nat ::
               IsOverlapped(addr0, size0, addr1, size1)
               <==> exists a: nat :: SharesByte(addr0, size0, addr1, size1, a))
       <==> size0 < TWO32 && size1 < TWO32
  {
    if size0 < TWO32 && size1 < TWO32 {
      forall addr0: nat, addr1: nat
        ensures IsOverlapped(addr0, size0, addr1, size1)
           <==> exists a: nat :: SharesByte(addr0, size0, addr1, size1, a)
      {
        OverlapMeansSharedByte(addr0, size0, addr1, size1);
      }
    } else if TWO32 <= size0 {
      var t := size0 % TWO32;
      assert SharesByte(0, size0, t, size1, t);
      assert !IsOverlapped(0, size0, t, size1);
    } else {
      var t := size1 % TWO32;
      assert SharesByte(t, size0, 0, size1, t);
      assert !IsOverlapped(t, size0, 0, size1);
    }
  }
}
