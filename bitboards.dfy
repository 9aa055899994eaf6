/**
 * Primitive operations on 64-bit bitboards (bitboard_operations.h).
 *
 * A bitboard is a `bv64`; square k (0 = a8, 63 = h1) is bit k. The
 * specifications speak of `Squares(b)`, the set of squares whose bit is set.
 */
module Bitboards {
  import opened Wrappers
  import opened BitVectors

  type Bitboard = bv64

  /** `1ULL << s`: the bitboard holding square s alone. */
  function SquareBit(s: int): Bitboard
    requires 0 <= s < 64
  {
    Single(s as bv6)
  }

  /** Bit k of b is set: the lowest bit of b shifted right k times. */
  predicate Bit(b: Bitboard, k: int)
    requires 0 <= k < 64
    decreases k
  {
    if k == 0 then b & 1 == 1 else Bit(b >> 1, k - 1)
  }

  /** The recursive bit test agrees with the single shift of BitAt. */
  lemma {:induction false} BitIsBitAt(b: Bitboard, k: int)
    requires 0 <= k < 64
    ensures Bit(b, k) == BitAt(b, k as bv6)
    decreases k
  {
    if k == 0 {
      ShiftZeroBv(b);
    } else {
      BitIsBitAt(b >> 1, k - 1);
      PredBv(k);
      ShiftOneBv(b, k as bv6);
    }
  }

  /** The squares a bitboard holds. */
  function Squares(b: Bitboard): set<int>
  {
    set k | 0 <= k < 64 && Bit(b, k)
  }

  /** Population count, as a specification. */
  function PopCount(b: Bitboard): nat
  {
    |Squares(b)|
  }

  /** The squares 0 .. n-1. */
  function Below(n: int): (r: set<int>)
    ensures forall k :: k in r <==> 0 <= k < n
    decreases n
  {
    if n <= 0 then {} else Below(n - 1) + {n - 1}
  }

  /** Bit i is set and every bit below it is clear. */
  predicate IsLowest(b: Bitboard, i: int)
  {
    0 <= i < 64 && Bit(b, i) && forall j :: 0 <= j < i ==> !Bit(b, j)
  }

  // ---------------------------------------------------------------------
  // Single bits at integer positions, lifted from the bv6 facts
  // ---------------------------------------------------------------------

  lemma SameBv(s: int, k: int)
    requires 0 <= s < 64 && 0 <= k < 64
    ensures (s as bv6 == k as bv6) == (s == k)
    ensures (k as bv6 < s as bv6) == (k < s)
  {
    IntToBv(s);
    IntToBv(k);
    LessBv(k as bv6, s as bv6);
  }

  lemma BitOr(a: Bitboard, c: Bitboard, k: int)
    requires 0 <= k < 64
    ensures Bit(a | c, k) == (Bit(a, k) || Bit(c, k))
  {
    BitIsBitAt(a | c, k);
    BitIsBitAt(a, k);
    BitIsBitAt(c, k);
    OrBv(a, c, k as bv6);
  }

  lemma BitAnd(a: Bitboard, c: Bitboard, k: int)
    requires 0 <= k < 64
    ensures Bit(a & c, k) == (Bit(a, k) && Bit(c, k))
  {
    BitIsBitAt(a & c, k);
    BitIsBitAt(a, k);
    BitIsBitAt(c, k);
    AndBv(a, c, k as bv6);
  }

  lemma BitXor(a: Bitboard, c: Bitboard, k: int)
    requires 0 <= k < 64
    ensures Bit(a ^ c, k) == (Bit(a, k) != Bit(c, k))
  {
    XorAsOrAndBv(a, c);
    BitAnd(a | c, !(a & c), k);
    BitOr(a, c, k);
    BitNot(a & c, k);
    BitAnd(a, c, k);
  }

  lemma BitNot(a: Bitboard, k: int)
    requires 0 <= k < 64
    ensures Bit(!a, k) == !Bit(a, k)
  {
    BitIsBitAt(!a, k);
    BitIsBitAt(a, k);
    NotBv(a, k as bv6);
  }

  lemma BitSquareBit(s: int, k: int)
    requires 0 <= s < 64 && 0 <= k < 64
    ensures Bit(SquareBit(s), k) == (k == s)
  {
    BitIsBitAt(SquareBit(s), k);
    SingleBv(s as bv6, k as bv6);
    SameBv(s, k);
  }

  lemma BitZero(k: int)
    requires 0 <= k < 64
    ensures !Bit(0, k)
  {
    BitIsBitAt(0, k);
    ZeroBv(k as bv6);
  }

  lemma BitLowMask(i: int, k: int)
    requires 0 <= i < 64 && 0 <= k < 64
    ensures Bit(LowMask(i as bv6), k) == (k < i)
  {
    SameBv(i, k);
    BitIsBitAt(LowMask(i as bv6), k);
    if k < i {
      LowMaskIn(i as bv6, k as bv6);
    } else {
      LowMaskOut(i as bv6, k as bv6);
    }
  }

  lemma BitOfBv(b: Bitboard, t: bv6)
    ensures 0 <= t as int < 64
    ensures Bit(b, t as int) == BitAt(b, t)
  {
    BvRange(t);
    BvToInt(t);
    BitIsBitAt(b, t as int);
  }

  /** A non-empty bitboard has a square. */
  lemma NonZeroHasSquare(b: Bitboard)
    requires b != 0
    ensures Squares(b) != {}
  {
    NonZeroBv(b);
    BitOfBv(b, TrailingZeros(b));
    assert TrailingZeros(b) as int in Squares(b);
  }

  /** A bitboard with no square set is zero. */
  lemma EmptyIsZero(b: Bitboard)
    requires Squares(b) == {}
    ensures b == 0
  {
    if b != 0 {
      NonZeroHasSquare(b);
      assert false;
    }
  }

  /** Two bitboards holding the same squares are equal. */
  lemma Extensionality(a: Bitboard, c: Bitboard)
    requires Squares(a) == Squares(c)
    ensures a == c
  {
    SquaresXor(a, c);
    EmptyIsZero(a ^ c);
  }

  lemma SquaresOr(a: Bitboard, c: Bitboard)
    ensures Squares(a | c) == Squares(a) + Squares(c)
  {
    forall k | 0 <= k < 64
      ensures Bit(a | c, k) == (Bit(a, k) || Bit(c, k))
    {
      BitOr(a, c, k);
    }
  }

  /**
   * `a | c` on whole boards. It is reached after two steps that change
   * nothing, so that a union of several boards is not expanded bit by bit
   * where only its squares matter.
   */
  function Or(a: Bitboard, c: Bitboard): Bitboard
  {
    OrAfter(a, c, 2)
  }

  function OrAfter(a: Bitboard, c: Bitboard, delay: nat): Bitboard
    decreases delay
  {
    if delay == 0 then a | c else OrAfter(a, c, delay - 1)
  }

  lemma OrIs(a: Bitboard, c: Bitboard)
    ensures Or(a, c) == a | c
  {
    assert OrAfter(a, c, 1) == OrAfter(a, c, 0);
  }

  lemma SquaresOrOf(a: Bitboard, c: Bitboard)
    ensures Squares(Or(a, c)) == Squares(a) + Squares(c)
  {
    OrIs(a, c);
    SquaresOr(a, c);
  }

  lemma SquaresAnd(a: Bitboard, c: Bitboard)
    ensures Squares(a & c) == Squares(a) * Squares(c)
  {
    forall k | 0 <= k < 64
      ensures Bit(a & c, k) == (Bit(a, k) && Bit(c, k))
    {
      BitAnd(a, c, k);
    }
  }

  lemma SquaresXor(a: Bitboard, c: Bitboard)
    ensures Squares(a ^ c) == (Squares(a) - Squares(c)) + (Squares(c) - Squares(a))
  {
    forall k | 0 <= k < 64
      ensures Bit(a ^ c, k) == (Bit(a, k) != Bit(c, k))
    {
      BitXor(a, c, k);
    }
  }

  lemma SquaresNot(a: Bitboard)
    ensures Squares(!a) == Below(64) - Squares(a)
  {
    forall k | 0 <= k < 64
      ensures Bit(!a, k) == !Bit(a, k)
    {
      BitNot(a, k);
    }
  }

  lemma SquaresSquareBit(s: int)
    requires 0 <= s < 64
    ensures Squares(SquareBit(s)) == {s}
  {
    forall k | 0 <= k < 64
      ensures Bit(SquareBit(s), k) == (k == s)
    {
      BitSquareBit(s, k);
    }
  }

  lemma SquaresZero()
    ensures Squares(0) == {}
  {
    forall k | 0 <= k < 64
      ensures !Bit(0, k)
    {
      BitZero(k);
    }
  }

  lemma {:induction false} BelowCount(n: nat)
    ensures |Below(n)| == n
  {
    if n > 0 {
      BelowCount(n - 1);
    }
  }

  lemma SubsetCount(a: set<int>, c: set<int>)
    requires a <= c
    ensures |a| <= |c|
  {
    assert c == a + (c - a);
  }

  lemma SquaresBounded(b: Bitboard)
    ensures Squares(b) <= Below(64)
    ensures PopCount(b) <= 64
  {
    BelowCount(64);
    SubsetCount(Squares(b), Below(64));
  }

  // ---------------------------------------------------------------------
  // Shifted single squares
  // ---------------------------------------------------------------------

  lemma SquaresSingle(u: bv6)
    ensures Squares(Single(u)) == {u as int}
  {
    BvToInt(u);
    BvRange(u);
    SquaresSquareBit(u as int);
  }

  /** `b >> n` moves the square at position t to t - n, or off the board when t < n. */
  lemma ShrSquares(t: bv6, n: bv6)
    ensures Squares(Single(t) >> n) == if t as int >= n as int then {t as int - n as int} else {}
  {
    LessBv(t, n);
    if n <= t {
      ShrSingleBv(t, n);
      SquaresSingle(t - n);
      SubBv(t, n);
    } else {
      ShrSingleOutBv(t, n);
      SquaresZero();
    }
  }

  /** `b << n` moves the square at position t to t + n, or off the board when t + n > 63. */
  lemma ShlSquares(t: bv6, n: bv6)
    ensures Squares(Single(t) << n) == if t as int + n as int < 64 then {t as int + n as int} else {}
  {
    SubBv(63, n);
    LessBv(63 - n, t);
    if t <= 63 - n {
      ShlSingleBv(t, n);
      SquaresSingle(t + n);
      AddBv(t, n);
    } else {
      ShlSingleOutBv(t, n);
      SquaresZero();
    }
  }

  /** A bitboard is zero exactly when it holds no square. */
  lemma ZeroIsEmpty(b: Bitboard)
    ensures (b == 0) == (Squares(b) == {})
  {
    if b == 0 {
      SquaresZero();
    } else {
      NonZeroHasSquare(b);
    }
  }

  // ---------------------------------------------------------------------
  // setBit, popBit, getBit
  // ---------------------------------------------------------------------

  /** setBit (bitboard_operations.h): `bitboard |= 1ULL << s`. */
  function SetBit(b: Bitboard, s: int): (r: Bitboard)
    requires 0 <= s < 64
    ensures Squares(r) == Squares(b) + {s}
  {
    SquaresOr(b, SquareBit(s));
    SquaresSquareBit(s);
    b | SquareBit(s)
  }

  /** popBit (bitboard_operations.h): toggles bit s off when it is set, otherwise leaves b alone. */
  function PopBit(b: Bitboard, s: int): (r: Bitboard)
    requires 0 <= s < 64
    ensures Squares(r) == Squares(b) - {s}
    ensures s !in Squares(b) ==> r == b
  {
    if Bit(b, s) then
      SquaresToggle(b, s);
      b ^ SquareBit(s)
    else
      b
  }

  /** getBit (bitboard_operations.h): 1 when square s is set, otherwise 0. */
  function GetBit(b: Bitboard, s: int): (r: int)
    requires 0 <= s < 64
    ensures r == 0 || r == 1
    ensures r == 1 <==> s in Squares(b)
  {
    if Bit(b, s) then 1 else 0
  }

  // ---------------------------------------------------------------------
  // The lowest set bit and population count
  // ---------------------------------------------------------------------

  function LowestFrom(b: Bitboard, k: int): (r: int)
    requires 0 <= k <= 64
    ensures k <= r <= 64
    ensures r < 64 ==> Bit(b, r)
    ensures forall j :: k <= j < r ==> !Bit(b, j)
    decreases 64 - k
  {
    if k == 64 then 64 else if Bit(b, k) then k else LowestFrom(b, k + 1)
  }

  /** The index of the least significant set bit of a non-empty bitboard. */
  function LowestSquare(b: Bitboard): (i: int)
    requires b != 0
    ensures IsLowest(b, i)
    ensures i in Squares(b)
    ensures forall k :: k in Squares(b) ==> i <= k
  {
    var i := LowestFrom(b, 0);
    if i == 64 then
      EmptyIsZero(b);
      assert false;
      0
    else
      i
  }

  lemma LessToBv(i: int, t: bv6)
    requires 0 <= i < t as int
    ensures i < 64 && i as bv6 < t
  {
    BvRange(t);
    IntToBv(i);
    LessBv(i as bv6, t);
  }

  lemma IsolateAbove(b: Bitboard, i: int, t: bv6)
    requires 0 <= i < 64 && Bit(b, i) && i < t as int
    ensures !BitAt(b & -b, t)
  {
    LessToBv(i, t);
    BitIsBitAt(b, i);
    IsolateBelowBv(b, i as bv6, t);
  }

  lemma IsolatedIsLowest(b: Bitboard, t: bv6)
    requires b != 0 && BitAt(b & -b, t)
    ensures t as int == LowestSquare(b)
  {
    var i := LowestSquare(b);
    IsolateOfBv(b, t);
    BitOfBv(b, t);
    assert t as int in Squares(b);
    if i < t as int {
      IsolateAbove(b, i, t);
      assert false;
    }
  }

  /** `b & -b` isolates the lowest set bit. */
  lemma IsolateLowest(b: Bitboard)
    requires b != 0
    ensures b & -b == SquareBit(LowestSquare(b))
  {
    var x := b & -b;
    IsolatePowerBv(b);
    var t := TrailingZeros(x);
    NonZeroBv(x);
    PowerSingleBv(x, t);
    IsolatedIsLowest(b, t);
    BvToInt(t);
  }

  /** Toggling a set square removes it. */
  lemma SquaresToggle(b: Bitboard, s: int)
    requires 0 <= s < 64 && s in Squares(b)
    ensures Squares(b ^ SquareBit(s)) == Squares(b) - {s}
  {
    SquaresXor(b, SquareBit(s));
    SquaresSquareBit(s);
    ToggleSets(Squares(b), Squares(SquareBit(s)), Squares(b ^ SquareBit(s)), s);
  }

  lemma ToggleSets(sq: set<int>, single: set<int>, toggled: set<int>, s: int)
    requires s in sq && single == {s} && toggled == (sq - single) + (single - sq)
    ensures toggled == sq - {s}
  {
  }

  lemma ClearLowestWord(b: Bitboard)
    requires b != 0
    ensures b & (b - 1) == b ^ SquareBit(LowestSquare(b))
  {
    IsolateLowest(b);
    ClearLowestBv(b);
  }

  /** `b & (b - 1)` clears exactly the lowest set bit. */
  lemma ClearLowest(b: Bitboard)
    requires b != 0
    ensures Squares(b & (b - 1)) == Squares(b) - {LowestSquare(b)}
    ensures PopCount(b & (b - 1)) == PopCount(b) - 1
  {
    ClearLowestWord(b);
    SquaresToggle(b, LowestSquare(b));
  }

  lemma BelowLowestWord(b: Bitboard)
    requires b != 0
    ensures (b & -b) - 1 == LowMask(LowestSquare(b) as bv6)
  {
    IsolateLowest(b);
    SingleMinusOneBv(LowestSquare(b) as bv6);
  }

  lemma SquaresLowMask(i: int)
    requires 0 <= i < 64
    ensures Squares(LowMask(i as bv6)) == Below(i)
  {
    var m := LowMask(i as bv6);
    forall k | 0 <= k < 64
      ensures Bit(m, k) == (k < i)
    {
      BitLowMask(i, k);
    }
  }

  /** `(b & -b) - 1` holds exactly the squares below the lowest set bit. */
  lemma BelowLowest(b: Bitboard)
    requires b != 0
    ensures Squares((b & -b) - 1) == Below(LowestSquare(b))
  {
    BelowLowestWord(b);
    SquaresLowMask(LowestSquare(b));
  }

  /** getPopulationCount (bitboard_operations.h): counts set bits by clearing the lowest one until none is left. */
  method GetPopulationCount(bitboard: Bitboard) returns (populationCount: int)
    ensures populationCount == PopCount(bitboard)
  {
    var b := bitboard;
    populationCount := 0;
    while b != 0
      invariant populationCount + PopCount(b) == PopCount(bitboard)
      decreases PopCount(b)
    {
      ClearLowest(b);
      populationCount := populationCount + 1;
      b := b & (b - 1);
    }
    SquaresZero();
  }

  /** getLS1BIndex (bitboard_operations.h): the popcount of the bits below the isolated lowest bit; throws on an empty board. */
  method GetLS1BIndex(bitboard: Bitboard) returns (r: Result<int>)
    ensures bitboard != 0 ==> r == Success(LowestSquare(bitboard))
    ensures bitboard == 0 ==> r == Failure(LSBOfEmptyBitboard)
  {
    if bitboard != 0 {
      var count := GetPopulationCount((bitboard & -bitboard) - 1);
      BelowLowest(bitboard);
      BelowCount(LowestSquare(bitboard));
      r := Success(count);
    } else {
      r := Failure(LSBOfEmptyBitboard);
    }
  }
}
