/** The alignment macros of include/utils.h: masks of a given width, and what they really round to. */
module Alignment {
  import opened Words

  const PAGE_SIZE := 0x1000
  const BAR_ALIGN := 0x10000

  function Pow2(k: nat): (r: nat)
    ensures r >= 1
  {
    if k == 0 then 1 else 2 * Pow2(k - 1)
  }

  /** Bitwise AND of two unsigned integers, bit by bit. */
  function BitAnd(x: nat, y: nat): (r: nat)
    ensures r <= x
    decreases x
  {
    if x == 0 || y == 0 then 0 else (if x % 2 == 1 && y % 2 == 1 then 1 else 0) + 2 * BitAnd(x / 2, y / 2)
  }

  // PAGE_SIZE is (1U << 12), so ~(PAGE_SIZE - 1) is 32 bits wide; the literals 0x10000 and 0xfff are
  // signed, so their complements extend to all 64 bits.
  const PAGE_MASK := 0xFFFF_F000
  const PAGE_MASK_64 := 0xFFFF_FFFF_FFFF_F000
  const BAR_MASK := 0xFFFF_FFFF_FFFF_0000

  /** PAGE_ALIGN_DOWN and PAGE_ALIGN_UP. */
  function PageAlignDown(x: U64): U64 { BitAnd(x, PAGE_MASK) }
  function PageAlignUp(x: U64): U64 { BitAnd(Add64(x, PAGE_SIZE - 1), PAGE_MASK) }

  /** ALIGN_UP(x, 0x10000), and x & ~0xfff. */
  function AlignUp64K(x: U64): U64 { BitAnd(Add64(x, BAR_ALIGN - 1), BAR_MASK) }
  function PageFloor64(x: U64): U64 { BitAnd(x, PAGE_MASK_64) }

  predicate Multiple(m: int, a: int)
    requires a > 0
  {
    m % a == 0
  }

  /** y is the greatest multiple of a that is at most x. */
  ghost predicate IsFloor(y: int, x: int, a: int)
    requires a > 0
  {
    Multiple(y, a) && y <= x && forall m :: Multiple(m, a) && m <= x ==> m <= y
  }

  /** y is the least multiple of a that is at least x. */
  ghost predicate IsCeiling(y: int, x: int, a: int)
    requires a > 0
  {
    Multiple(y, a) && y >= x && forall m :: Multiple(m, a) && m >= x ==> m >= y
  }

  lemma Pow2Values()
    ensures Pow2(12) == 0x1000 && Pow2(16) == 0x1_0000 && Pow2(32) == TWO_32 && Pow2(64) == TWO_64
  {
    Pow2Step(4); Pow2Step(8); Pow2Step(12); Pow2Step(16); Pow2Step(20); Pow2Step(24); Pow2Step(28);
    Pow2Step(32); Pow2Step(36); Pow2Step(40); Pow2Step(44); Pow2Step(48); Pow2Step(52); Pow2Step(56);
    Pow2Step(60); Pow2Step(64);
  }

  lemma Pow2Step(k: nat)
    requires k >= 4
    ensures Pow2(k) == 16 * Pow2(k - 4)
    ensures Pow2(0) == 1
  {
    assert Pow2(k) == 2 * Pow2(k - 1);
    assert Pow2(k - 1) == 2 * Pow2(k - 2);
    assert Pow2(k - 2) == 2 * Pow2(k - 3);
  }

  /** The number made of the k low bits of x. */
  function LowBits(x: nat, k: nat): nat {
    if k == 0 then 0 else x % 2 + 2 * LowBits(x / 2, k - 1)
  }

  lemma {:induction false} LowBitsIsMod(x: nat, k: nat)
    ensures LowBits(x, k) == x % Pow2(k)
    decreases k
  {
    if k != 0 {
      LowBitsIsMod(x / 2, k - 1);
      ModTwice(x, Pow2(k - 1));
    }
  }

  lemma ModTwice(x: nat, p: nat)
    requires p >= 1
    ensures x % (2 * p) == 2 * ((x / 2) % p) + x % 2
  {
    var h := x / 2;
    var q, r := h / p, h % p;
    assert x == 2 * h + x % 2 && h == q * p + r;
    assert x == q * (2 * p) + (2 * r + x % 2) by { assert 2 * (q * p) == q * (2 * p); }
    DivModUnique(x, 2 * p, q, 2 * r + x % 2);
  }

  /** Masking with 2^width - 2^k keeps bits k to width-1: it drops the low k bits and everything from
      the width on. */
  lemma {:induction false} MaskKeepsMiddleBits(x: nat, mask: nat, width: nat, k: nat)
    requires k <= width && mask + Pow2(k) == Pow2(width)
    ensures BitAnd(x, mask) == LowBits(x, width) - LowBits(x, k)
    decreases width
  {
    if k != 0 {
      MaskKeepsMiddleBits(x / 2, mask / 2, width - 1, k - 1);
      BitAndStep(x, mask / 2, 0, mask);
      LowBitsStep(x, width);
      LowBitsStep(x, k);
    } else if width != 0 {
      MaskKeepsMiddleBits(x / 2, mask / 2, width - 1, 0);
      BitAndStep(x, mask / 2, 1, mask);
      LowBitsStep(x, width);
    }
  }

  lemma LowBitsStep(x: nat, k: nat)
    requires k > 0
    ensures LowBits(x, k) == x % 2 + 2 * LowBits(x / 2, k - 1)
  {
  }

  lemma BitAndStep(x: nat, y: nat, bit: nat, z: nat)
    requires bit <= 1 && z == 2 * y + bit
    ensures BitAnd(x, z) == (if bit == 1 then x % 2 else 0) + 2 * BitAnd(x / 2, y)
  {
    assert z % 2 == bit && z / 2 == y;
  }

  lemma MulMono(p: int, q: int, a: int)
    requires p <= q && a > 0
    ensures p * a <= q * a
  {
  }

  lemma MultiplesApart(m: int, y: int, a: int)
    requires a > 0 && Multiple(m, a) && Multiple(y, a) && m < y
    ensures m + a <= y
  {
    assert m == (m / a) * a && y == (y / a) * a;
    if y / a < m / a + 1 { MulMono(y / a, m / a, a); }
    MulMono(m / a + 1, y / a, a);
  }

  lemma FloorValue(y: int, x: int, a: int)
    requires a > 0
    ensures IsFloor(y, x, a) <==> y == x - x % a
  {
    var f := x - x % a;
    DivModUnique(f, a, x / a, 0);
    assert Multiple(f, a);
    forall m | Multiple(m, a) && m <= x ensures m <= f {
      if m > f { MultiplesApart(f, m, a); }
    }
  }

  lemma CeilingValue(y: int, x: int, a: int)
    requires a > 0
    ensures IsCeiling(y, x, a) <==> y == x + (a - 1) - (x + (a - 1)) % a
  {
    var c := x + (a - 1) - (x + (a - 1)) % a;
    DivModUnique(c, a, (x + (a - 1)) / a, 0);
    assert Multiple(c, a);
    forall m | Multiple(m, a) && m >= x ensures m >= c {
      if m < c { MultiplesApart(m, c, a); }
    }
  }

  lemma MaskValue(x: nat, mask: nat, width: nat, k: nat)
    requires k <= width && mask + Pow2(k) == Pow2(width)
    ensures BitAnd(x, mask) == x % Pow2(width) - x % Pow2(k)
  {
    MaskKeepsMiddleBits(x, mask, width, k);
    LowBitsIsMod(x, width);
    LowBitsIsMod(x, k);
  }

  lemma PageMaskValue(x: U64)
    ensures BitAnd(x, PAGE_MASK) == x % TWO_32 - x % PAGE_SIZE
    ensures BitAnd(x, PAGE_MASK) <= TWO_32 - PAGE_SIZE
    ensures x < TWO_32 ==> BitAnd(x, PAGE_MASK) == x - x % PAGE_SIZE
  {
    Pow2Values();
    MaskValue(x, PAGE_MASK, 32, 12);
    LowPage(x);
  }

  lemma LowPage(x: nat)
    ensures x % TWO_32 - x % PAGE_SIZE <= TWO_32 - PAGE_SIZE
    ensures x < TWO_32 ==> x % TWO_32 == x
  {
    var low := x % TWO_32;
    var page := low / PAGE_SIZE;
    DivModUnique(x, PAGE_SIZE, (x / TWO_32) * 0x10_0000 + page, low % PAGE_SIZE);
    assert low == page * PAGE_SIZE + x % PAGE_SIZE && page <= 0xF_FFFF;
  }

  lemma PageMask64Value(x: U64)
    ensures BitAnd(x, PAGE_MASK_64) == x - x % PAGE_SIZE
  {
    Pow2Values();
    MaskValue(x, PAGE_MASK_64, 64, 12);
    SmallMod(x, TWO_64);
  }

  lemma BarMaskValue(x: U64)
    ensures BitAnd(x, BAR_MASK) == x - x % BAR_ALIGN
  {
    Pow2Values();
    MaskValue(x, BAR_MASK, 64, 16);
    SmallMod(x, TWO_64);
  }

  /** PAGE_ALIGN_DOWN is the page floor exactly below 4 GiB: its mask clears the upper 32 bits. */
  lemma PageAlignDownIsFloor(x: U64)
    ensures IsFloor(PageAlignDown(x), x, 0x1000) <==> x < TWO_32
  {
    PageMaskValue(x);
    FloorValue(PageAlignDown(x), x, PAGE_SIZE);
  }

  /** PAGE_ALIGN_UP is the page ceiling exactly when that ceiling is itself below 4 GiB. */
  lemma PageAlignUpIsCeiling(x: U64)
    ensures IsCeiling(PageAlignUp(x), x, 0x1000) <==> x <= TWO_32 - 0x1000
  {
    var up := Add64(x, PAGE_SIZE - 1);
    var v := PageAlignUp(x);
    PageMaskValue(up);
    if x <= TWO_32 - PAGE_SIZE {
      AddFits(x, PAGE_SIZE - 1);
      CeilingValue(v, x, PAGE_SIZE);
    } else {
      assert v < x;
    }
  }

  /** Every address that rounds to 4 GiB is rounded to 0. */
  lemma FourGiBRoundsToZero(k: nat)
    requires k < PAGE_SIZE
    ensures PageAlignDown(TWO_32 + k) == 0 && PageAlignUp(TWO_32 - k) == 0
  {
    MaskedToZero(TWO_32 + k);
    AddFits(TWO_32 - k, PAGE_SIZE - 1);
    MaskedToZero(Add64(TWO_32 - k, PAGE_SIZE - 1));
  }

  lemma MaskedToZero(x: U64)
    requires TWO_32 <= x < TWO_32 + PAGE_SIZE
    ensures BitAnd(x, PAGE_MASK) == 0
  {
    PageMaskValue(x);
    DivModUnique(x, TWO_32, 1, x - TWO_32);
    DivModUnique(x, PAGE_SIZE, 0x10_0000, x - TWO_32);
  }

  lemma AddFits(x: nat, y: nat)
    ensures x + y < TWO_64 ==> Add64(x, y) == x + y
    ensures x < TWO_64 <= x + y && y < TWO_64 ==> Add64(x, y) == x + y - TWO_64 < x
  {
  }

  /** Rounding a size up to 64 KiB is exact as long as the sum does not leave 64 bits. */
  lemma AlignUp64KIsCeiling(x: U64)
    ensures IsCeiling(AlignUp64K(x), x, 0x1_0000) <==> x <= TWO_64 - 0x1_0000
  {
    var up := Add64(x, BAR_ALIGN - 1);
    BarMaskValue(up);
    AddFits(x, BAR_ALIGN - 1);
    RoundedIsCeiling(AlignUp64K(x), x, up, BAR_ALIGN);
  }

  /** Rounding down up, which is x + a - 1 unless that wrapped, gives the ceiling if it did not wrap. */
  lemma RoundedIsCeiling(v: nat, x: nat, up: nat, a: nat)
    requires a > 0 && v == up - up % a && (up == x + (a - 1) || up < x)
    ensures IsCeiling(v, x, a) <==> up == x + (a - 1)
  {
    if up == x + (a - 1) {
      CeilingValue(v, x, a);
    } else {
      assert v <= up;
    }
  }

  /** The 64-bit page mask is the page floor for every address. */
  lemma PageFloor64IsFloor(x: U64)
    ensures IsFloor(PageFloor64(x), x, 0x1000)
  {
    PageMask64Value(x);
    FloorValue(PageFloor64(x), x, PAGE_SIZE);
  }
}
