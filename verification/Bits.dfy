/**
  The bit arithmetic by which a 64-bit hash picks a register and a rank.
  Words are real 64-bit vectors, so shifts drop bits exactly as in Go.
 */
module Bits {
  import opened Base

  const TOP_BIT: bv64 := 0x8000_0000_0000_0000

  /** The register index: the 14 leading bits of the hash. */
  function Bucket(hash: bv64): (idx: nat)
    ensures idx < NUM_REGS
  {
    (hash >> 50) as nat
  }

  /** math/bits.Len64 as a binary search over halves of the word. */
  function Len8(x: bv64): nat
  {
    if x == 0 then 0 else if x < 2 then 1 else if x < 4 then 2 else if x < 8 then 3 else if x < 16 then 4
    else if x < 32 then 5 else if x < 64 then 6 else if x < 128 then 7 else 8
  }

  function Len16(x: bv64): nat
  {
    if x >= 0x100 then 8 + Len8(x >> 8) else Len8(x)
  }

  function Len32(x: bv64): nat
  {
    if x >= 0x1_0000 then 16 + Len16(x >> 16) else Len16(x)
  }

  function Len64(x: bv64): nat
  {
    if x >= 0x1_0000_0000 then 32 + Len32(x >> 32) else Len32(x)
  }

  /** The 50 trailing hash bits moved to the top, padded below with ones so that the word is never zero. */
  function Padded(hash: bv64): (w: bv64)
    ensures w != 0
  {
    (hash << 14) | 0x3fff
  }

  /** The rank stored in a register: LeadingZeros64 of the padded word, plus one. */
  function Rho(hash: bv64): (rho: nat)
    ensures 1 <= rho <= 51
  {
    64 - Len64(Padded(hash)) + 1
  }

  /** Reference: how many of the n leading bits of v are zero before the first one, found by looking at one bit at a time. */
  function LeadingZeros(v: bv64, n: bv64): nat
    decreases n
  {
    if n == 0 || v >= TOP_BIT then 0 else 1 + LeadingZeros(v << 1, n - 1)
  }

  lemma Len16Shift(x: bv64)
    requires 0 < x < 0x8000
    ensures Len16(x << 1) == Len16(x) + 1
  {
  }

  lemma Len32Shift(x: bv64)
    requires 0 < x < 0x8000_0000
    ensures Len32(x << 1) == Len32(x) + 1
  {
    if x >= 0x1_0000 {
      Len16Shift(x >> 16);
    } else if x < 0x8000 {
      Len16Shift(x);
    }
  }

  lemma Len64Shift(x: bv64)
    requires 0 < x < TOP_BIT
    ensures Len64(x << 1) == Len64(x) + 1
  {
    if x >= 0x1_0000_0000 {
      Len32Shift(x >> 32);
    } else if x < 0x8000_0000 {
      Len32Shift(x);
    }
  }

  /** What a bit-length function does at x: 64 when the top bit is set, one more per shift otherwise. */
  ghost predicate BitLengthAt(len: bv64 -> nat, x: bv64)
  {
    (x >= TOP_BIT ==> len(x) == 64) && (0 < x < TOP_BIT ==> len(x << 1) == len(x) + 1)
  }

  /** There is a one among the n + 1 leading bits of w. */
  predicate OneWithin(w: bv64, n: bv64)
    decreases n
  {
    w >= TOP_BIT || (n != 0 && OneWithin(w << 1, n - 1))
  }

  /** Doubling b n times gives the top bit. */
  predicate ReachesTop(b: bv64, n: bv64)
    decreases n
  {
    if n == 0 then b == TOP_BIT else ReachesTop(b << 1, n - 1)
  }

  lemma SevenMoreDoublings(b: bv64, n: bv64)
    requires 7 <= n <= 63 && ReachesTop(b << 7, n - 7)
    ensures ReachesTop(b, n)
  {
    assert ReachesTop(b << 6, n - 6);
    assert ReachesTop(b << 5, n - 5);
    assert ReachesTop(b << 4, n - 4);
    assert ReachesTop(b << 3, n - 3);
    assert ReachesTop(b << 2, n - 2);
    assert ReachesTop(b << 1, n - 1);
  }

  lemma OneReachesTop()
    ensures ReachesTop(1, 63)
  {
    SevenMoreDoublings(0x100_0000_0000_0000, 7);
    SevenMoreDoublings(0x2_0000_0000_0000, 14);
    SevenMoreDoublings(0x400_0000_0000, 21);
    SevenMoreDoublings(0x8_0000_0000, 28);
    SevenMoreDoublings(0x1000_0000, 35);
    SevenMoreDoublings(0x20_0000, 42);
    SevenMoreDoublings(0x4000, 49);
    SevenMoreDoublings(0x80, 56);
    SevenMoreDoublings(1, 63);
  }

  lemma ShiftKeepsOrder(b: bv64, w: bv64)
    requires b <= w < TOP_BIT
    ensures b << 1 <= w << 1
  {
  }

  lemma {:induction false} LargeHasOne(b: bv64, w: bv64, n: bv64)
    requires b <= w && ReachesTop(b, n)
    ensures OneWithin(w, n)
    decreases n
  {
    if n != 0 && w < TOP_BIT {
      ShiftKeepsOrder(b, w);
      LargeHasOne(b << 1, w << 1, n - 1);
    }
  }

  /** Any bit-length function counts leading zeros. */
  lemma {:induction false} LeadingZerosIsLen(len: bv64 -> nat, w: bv64, n: bv64)
    requires forall x: bv64 :: BitLengthAt(len, x)
    requires w != 0 && OneWithin(w, n)
    ensures LeadingZeros(w, n) == 64 - len(w)
    decreases n
  {
    assert BitLengthAt(len, w);
    if w < TOP_BIT {
      LeadingZerosIsLen(len, w << 1, n - 1);
    }
  }

  /** Padding with ones below n live bits does not change the count over those bits. */
  lemma {:induction false} PaddingStopsTheCount(v: bv64, n: bv64)
    requires n <= 50
    ensures LeadingZeros(v | (0x3fff << (50 - n)), n + 13) == LeadingZeros(v, n)
    decreases n
  {
    if n != 0 && v < TOP_BIT {
      assert (v << 1) | (0x3fff << (50 - (n - 1))) == (v | (0x3fff << (50 - n))) << 1;
      assert n - 1 + 13 == n + 13 - 1;
      PaddingStopsTheCount(v << 1, n - 1);
    }
  }

  lemma Len64OfTop(x: bv64)
    requires x >= TOP_BIT
    ensures Len64(x) == 64
  {
  }

  lemma Len64IsLeadingZeros(w: bv64)
    requires w != 0
    ensures LeadingZeros(w, 63) == 64 - Len64(w)
  {
    var len: bv64 -> nat := Len64;
    forall x: bv64 ensures BitLengthAt(len, x) {
      if x >= TOP_BIT {
        Len64OfTop(x);
      } else if x != 0 {
        Len64Shift(x);
      }
    }
    OneReachesTop();
    LargeHasOne(1, w, 63);
    LeadingZerosIsLen(len, w, 63);
  }

  /** The rank is one plus the number of leading zeros among the 50 hash bits that are not the bucket index. */
  lemma RhoIsRank(hash: bv64)
    ensures Rho(hash) == 1 + LeadingZeros(hash << 14, 50)
  {
    Len64IsLeadingZeros(Padded(hash));
    PaddingStopsTheCount(hash << 14, 50);
  }

  /** Where an id lands: its register and its rank there. */
  datatype RawSlot = Slot(idx: nat, rho: nat)
  type Slot = s: RawSlot | s.idx < NUM_REGS && 1 <= s.rho <= 51 witness Slot(0, 1)

  function SlotOf(hash: bv64): Slot
  {
    Slot(Bucket(hash), Rho(hash))
  }

  /** A hash made of the 14-bit number k and the 50-bit number low picks register k. */
  lemma BucketIsTopBits(k: bv64, low: bv64)
    requires k < 0x4000 && low < 0x4_0000_0000_0000
    ensures Bucket((k << 50) | low) == k as nat
  {
    assert ((k << 50) | low) >> 50 == k;
  }

  /** The 64-bit hash of an id, and the placement it induces. */
  type Murmur = uint64 -> bv64
  type Placement = uint64 -> Slot

  function PlacementOf(murmur: Murmur): Placement
  {
    (id: uint64) => SlotOf(murmur(id))
  }

  /**
    Where an id lands, exactly: the top 14 bits of its hash name the register and
    the rank is one plus the leading zeros of the other 50.
   */
  lemma PlacementExact(murmur: Murmur, id: uint64, k: bv64, low: bv64)
    requires k < 0x4000 && low < 0x4_0000_0000_0000 && murmur(id) == (k << 50) | low
    ensures LeadingZeros(low << 14, 50) <= 50
    ensures PlacementOf(murmur)(id) == Slot(k as nat, 1 + LeadingZeros(low << 14, 50))
  {
    BucketIsTopBits(k, low);
    RhoIsRank(murmur(id));
    assert ((k << 50) | low) << 14 == low << 14;
  }
}
