/**
 * Facts about single bits of a `bv64`, with bit positions of type `bv6`.
 * The solver decides each of them on its own; the bitboard module lifts them
 * to integer square indices through the conversion lemmas at the end.
 */
module BitVectors {

  /** Bit k of b is set. */
  predicate BitAt(b: bv64, k: bv6)
  {
    (b >> k) & 1 == 1
  }

  /** The word with bit i alone. */
  function Single(i: bv6): bv64
  {
    1 << i
  }

  /** The word with bits 0 .. i-1. */
  function LowMask(i: bv6): bv64
  {
    (1 << i) - 1
  }

  lemma OrBv(a: bv64, c: bv64, k: bv6)
    ensures BitAt(a | c, k) == (BitAt(a, k) || BitAt(c, k))
  {
  }

  lemma AndBv(a: bv64, c: bv64, k: bv6)
    ensures BitAt(a & c, k) == (BitAt(a, k) && BitAt(c, k))
  {
  }

  lemma XorBv(a: bv64, c: bv64, k: bv6)
    ensures BitAt(a ^ c, k) == (BitAt(a, k) != BitAt(c, k))
  {
  }

  lemma XorAsOrAndBv(a: bv64, c: bv64)
    ensures a ^ c == (a | c) & !(a & c)
  {
  }

  lemma NotBv(a: bv64, k: bv6)
    ensures BitAt(!a, k) == !BitAt(a, k)
  {
  }

  lemma ZeroBv(k: bv6)
    ensures !BitAt(0, k)
  {
  }

  lemma SingleBv(s: bv6, k: bv6)
    ensures BitAt(Single(s), k) == (k == s)
  {
  }

  lemma LowMaskIn(i: bv6, k: bv6)
    requires k < i
    ensures BitAt(LowMask(i), k)
  {
  }

  lemma LowMaskOut(i: bv6, k: bv6)
    requires i <= k
    ensures !BitAt(LowMask(i), k)
  {
  }

  /**
   * Index of the lowest set bit by binary search over halves, quarters, ...;
   * used only to show that a non-zero word has a set bit.
   */
  function TrailingZeros(b: bv64): bv6
  {
    var t5: bv6 := if b & 0xffff_ffff == 0 then 32 else 0;
    var b5 := b >> t5;
    var t4: bv6 := if b5 & 0xffff == 0 then 16 else 0;
    var b4 := b5 >> t4;
    var t3: bv6 := if b4 & 0xff == 0 then 8 else 0;
    var b3 := b4 >> t3;
    var t2: bv6 := if b3 & 0xf == 0 then 4 else 0;
    var b2 := b3 >> t2;
    var t1: bv6 := if b2 & 0x3 == 0 then 2 else 0;
    var b1 := b2 >> t1;
    var t0: bv6 := if b1 & 0x1 == 0 then 1 else 0;
    t5 + t4 + t3 + t2 + t1 + t0
  }

  lemma NonZeroBv(b: bv64)
    requires b != 0
    ensures BitAt(b, TrailingZeros(b))
  {
  }

  /** `b & -b` keeps only bits of b ... */
  lemma IsolateOfBv(b: bv64, k: bv6)
    ensures BitAt(b & -b, k) ==> BitAt(b, k)
  {
  }

  /** ... and no bit above a set bit of b. */
  lemma IsolateBelowBv(b: bv64, j: bv6, k: bv6)
    requires j < k && BitAt(b, j)
    ensures !BitAt(b & -b, k)
  {
  }

  /** `b & -b` of a non-zero word is a non-zero power of two. */
  lemma IsolatePowerBv(b: bv64)
    requires b != 0
    ensures b & -b != 0 && (b & -b) & ((b & -b) - 1) == 0
  {
  }

  /** A power of two is the single bit it holds. */
  lemma PowerSingleBv(x: bv64, t: bv6)
    requires x & (x - 1) == 0 && BitAt(x, t)
    ensures x == Single(t)
  {
  }

  /** `b & (b - 1)` removes the isolated lowest bit. */
  lemma ClearLowestBv(b: bv64)
    ensures b & (b - 1) == b ^ (b & -b)
  {
  }

  lemma SingleMinusOneBv(t: bv6)
    ensures Single(t) - 1 == LowMask(t)
  {
  }

  lemma ShrSingleBv(s: bv6, n: bv6)
    requires n <= s
    ensures Single(s) >> n == Single(s - n)
  {
  }

  lemma ShrSingleOutBv(s: bv6, n: bv6)
    requires s < n
    ensures Single(s) >> n == 0
  {
  }

  lemma ShlSingleBv(s: bv6, n: bv6)
    requires s <= 63 - n
    ensures Single(s) << n == Single(s + n)
  {
  }

  lemma ShlSingleOutBv(s: bv6, n: bv6)
    requires s > 63 - n
    ensures Single(s) << n == 0
  {
  }

  /** A one-bit word shifted by a whole rank is empty exactly when the bit is on the edge rank. */
  lemma RankShiftBv(t: bv6)
    ensures (Single(t) >> 8 != 0) == (t >= 8)
    ensures (Single(t) << 8 != 0) == (t < 56)
  {
  }

  /** The file masks of const.h: every file but a, but h, but a and b, but g and h. */
  lemma FileMasksBv(t: bv6)
    ensures BitAt(0xfefe_fefe_fefe_fefe, t) == (t & 7 != 0)
    ensures BitAt(0x7f7f_7f7f_7f7f_7f7f, t) == (t & 7 != 7)
    ensures BitAt(0xfcfc_fcfc_fcfc_fcfc, t) == (t & 7 >= 2)
    ensures BitAt(0x3f3f_3f3f_3f3f_3f3f, t) == (t & 7 <= 5)
  {
  }

  lemma SingleMeetsBv(t: bv6, m: bv64)
    ensures (Single(t) & m != 0) == BitAt(m, t)
  {
  }

  lemma FileOfBv(a: bv6)
    ensures (a & 7 != 0) == (a as int % 8 != 0)
    ensures (a & 7 != 7) == (a as int % 8 != 7)
    ensures (a & 7 >= 2) == (a as int % 8 >= 2)
    ensures (a & 7 <= 5) == (a as int % 8 <= 5)
  {
  }

  lemma SubBv(a: bv6, n: bv6)
    requires n <= a
    ensures (a - n) as int == a as int - n as int
  {
  }

  lemma AddBv(a: bv6, n: bv6)
    requires a <= 63 - n
    ensures (a + n) as int == a as int + n as int
  {
  }

  lemma ShiftZeroBv(b: bv64)
    ensures BitAt(b, 0) == (b & 1 == 1)
  {
  }

  lemma ShiftOneBv(b: bv64, t: bv6)
    requires t != 0
    ensures BitAt(b >> 1, t - 1) == BitAt(b, t)
  {
  }

  lemma PredBv(k: int)
    requires 0 < k < 64
    ensures (k - 1) as bv6 == (k as bv6) - 1
  {
    var t := k as bv6;
    IntToBv(k);
    LessBv(0, t);
    SubBv(t, 1);
    BvToInt(t - 1);
  }

  lemma BvRange(k: bv6)
    ensures 0 <= k as int < 64
  {
  }

  lemma IntToBv(k: int)
    requires 0 <= k < 64
    ensures (k as bv6) as int == k
  {
  }

  lemma BvToInt(k: bv6)
    ensures (k as int) as bv6 == k
  {
  }

  lemma LessBv(x: bv6, y: bv6)
    ensures (x < y) == (x as int < y as int)
  {
  }
}
