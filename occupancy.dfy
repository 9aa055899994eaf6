/**
 * Occupancy variations of an attack mask (magic_bitboards.cpp,
 * generateOccupancy). The mask's squares are taken from the lowest up; bit k
 * of the occupancy index decides whether the k-th of them is occupied. The
 * numbers 0 .. 2^n - 1, n the number of mask squares, thus name every subset
 * of the mask exactly once; `OccupancyIndex` is the inverse that reads the
 * number back from a subset. The combinatorics are stated on sets of squares;
 * `LeastOfBitboard` ties the least square of a set to the lowest set bit.
 */
module Occupancies {
  import opened Wrappers
  import opened Bitboards

  function Pow2(n: nat): (r: nat)
    ensures r >= 1
  {
    if n == 0 then 1 else 2 * Pow2(n - 1)
  }

  /** i shifted right k times, rounding down: the arithmetic shift `i >> k` of a machine integer. */
  function Shifted(i: int, k: nat): int
    decreases k
  {
    if k == 0 then i else Shifted(i / 2, k - 1)
  }

  /** Bit k of a machine integer, the value of `i & (1 << k)` being non-zero. */
  predicate IndexBit(i: int, k: nat)
  {
    Shifted(i, k) % 2 == 1
  }

  lemma {:induction false} ShiftedOnce(i: int, k: nat)
    ensures Shifted(i, k + 1) == Shifted(i, k) / 2
    decreases k
  {
    if k > 0 {
      ShiftedOnce(i / 2, k - 1);
    }
  }

  /** The squares of a set all lie on the board. */
  predicate OnBoardSquares(m: set<int>)
  {
    forall s :: s in m ==> 0 <= s < 64
  }

  /** The least square of m from k up, or 64 when there is none. */
  function Least(m: set<int>, k: int): (r: int)
    requires 0 <= k <= 64
    ensures k <= r <= 64
    ensures r < 64 ==> r in m
    ensures forall j :: k <= j < r ==> j !in m
    decreases 64 - k
  {
    if k == 64 then 64 else if k in m then k else Least(m, k + 1)
  }

  /** A set of squares without a least square is empty. */
  lemma NoLeastIsEmpty(m: set<int>)
    requires OnBoardSquares(m) && Least(m, 0) == 64
    ensures m == {}
  {
    assert forall s :: s !in m;
  }

  /**
   * The occupied squares that index i names among the first n squares of m:
   * bit 0 of i for the least square, the rest of i for the rest of m. Every
   * occupancy lies within m.
   */
  function Occupancy(i: int, n: int, m: set<int>): (r: set<int>)
    ensures r <= m
    decreases |m|
  {
    var low := Least(m, 0);
    if n <= 0 || low == 64 then {}
    else (if i % 2 == 1 then {low} else {}) + Occupancy(i / 2, n - 1, m - {low})
  }

  /** The number whose bits name the squares of o, read along m from its least square up. */
  function OccupancyIndex(o: set<int>, m: set<int>): int
    decreases |m|
  {
    var low := Least(m, 0);
    if low == 64 then 0
    else (if low in o then 1 else 0) + 2 * OccupancyIndex(o, m - {low})
  }

  /** One unfolding of `Occupancy` at a set with a least square. */
  lemma OccupancyPeel(x: int, n: int, m: set<int>)
    requires 0 < n && Least(m, 0) < 64
    ensures Occupancy(x, n, m) == (if x % 2 == 1 then {Least(m, 0)} else {}) + Occupancy(x / 2, n - 1, m - {Least(m, 0)})
  {
  }

  /** One unfolding of `OccupancyIndex` at a set with a least square. */
  lemma IndexPeel(o: set<int>, m: set<int>)
    requires Least(m, 0) < 64
    ensures OccupancyIndex(o, m) == (if Least(m, 0) in o then 1 else 0) + 2 * OccupancyIndex(o, m - {Least(m, 0)})
  {
  }

  /** Reading an index ignores squares outside m. */
  lemma {:induction false} IndexIgnores(o: set<int>, x: int, m: set<int>)
    requires x !in m
    ensures OccupancyIndex(o + {x}, m) == OccupancyIndex(o, m)
    ensures OccupancyIndex(o - {x}, m) == OccupancyIndex(o, m)
    decreases |m|
  {
    var low := Least(m, 0);
    if low != 64 {
      IndexIgnores(o, x, m - {low});
    }
  }

  lemma HalfAndParity(i: int)
    ensures i == i % 2 + 2 * (i / 2)
    ensures i % 2 == 0 || i % 2 == 1
  {
  }

  lemma HalfBelow(i: int, n: nat)
    requires 0 <= i < Pow2(n + 1)
    ensures 0 <= i / 2 < Pow2(n)
  {
  }

  lemma PairHalves(b: int, j: int)
    requires b == 0 || b == 1
    ensures (b + 2 * j) % 2 == b && (b + 2 * j) / 2 == j
  {
  }

  lemma IndexOfOccupancyStep(i: int, m: set<int>, tail: set<int>, occ: set<int>)
    requires Least(m, 0) < 64 && tail <= m - {Least(m, 0)}
    requires i % 2 == 0 || i % 2 == 1
    requires OccupancyIndex(tail, m - {Least(m, 0)}) == i / 2 && i == i % 2 + 2 * (i / 2)
    requires occ == (if i % 2 == 1 then {Least(m, 0)} else {}) + tail
    ensures OccupancyIndex(occ, m) == i
  {
    var low := Least(m, 0);
    var rest := m - {low};
    assert OccupancyIndex(occ, rest) == i / 2 by {
      if i % 2 == 1 {
        assert occ == tail + {low};
        IndexIgnores(tail, low, rest);
      } else {
        assert occ == tail;
      }
    }
    assert (low in occ) == (i % 2 == 1);
    IndexPeel(occ, m);
  }

  /** Every index below 2^|m| names an occupancy from which the index is read back. */
  lemma {:induction false} IndexOfOccupancy(i: int, m: set<int>)
    requires OnBoardSquares(m) && 0 <= i < Pow2(|m|)
    ensures OccupancyIndex(Occupancy(i, |m|, m), m) == i
    decreases |m|
  {
    var low := Least(m, 0);
    if low == 64 {
      NoLeastIsEmpty(m);
    } else {
      var rest := m - {low};
      assert |rest| == |m| - 1;
      var tail := Occupancy(i / 2, |rest|, rest);
      assert OccupancyIndex(tail, rest) == i / 2 by {
        HalfBelow(i, |rest|);
        IndexOfOccupancy(i / 2, rest);
      }
      assert Occupancy(i, |m|, m) == (if i % 2 == 1 then {low} else {}) + tail by {
        OccupancyPeel(i, |m|, m);
      }
      HalfAndParity(i);
      IndexOfOccupancyStep(i, m, tail, Occupancy(i, |m|, m));
    }
  }

  /** Every subset of m is the occupancy its index names, and that index is below 2^|m|. */
  lemma {:induction false} OccupancyOfIndex(o: set<int>, m: set<int>)
    requires OnBoardSquares(m) && o <= m
    ensures 0 <= OccupancyIndex(o, m) < Pow2(|m|)
    ensures Occupancy(OccupancyIndex(o, m), |m|, m) == o
    decreases |m|
  {
    var low := Least(m, 0);
    if low == 64 {
      NoLeastIsEmpty(m);
    } else {
      var rest := m - {low};
      var o' := o - {low};
      OccupancyOfIndex(o', rest);
      IndexIgnores(o, low, rest);
      var j := OccupancyIndex(o', rest);
      assert |rest| == |m| - 1;
      assert OccupancyIndex(o, m) == (if low in o then 1 else 0) + 2 * j;
      OccupancyOfIndexStep(o, m, j);
    }
  }

  /** The inductive step of `OccupancyOfIndex`: the least square read as bit 0, the rest of the subset from the rest of m. */
  lemma OccupancyOfIndexStep(o: set<int>, m: set<int>, j: int)
    requires Least(m, 0) < 64 && o <= m
    requires Occupancy(j, |m - {Least(m, 0)}|, m - {Least(m, 0)}) == o - {Least(m, 0)}
    requires OccupancyIndex(o, m) == (if Least(m, 0) in o then 1 else 0) + 2 * j
    ensures Occupancy(OccupancyIndex(o, m), |m|, m) == o
  {
    var low := Least(m, 0);
    var idx := OccupancyIndex(o, m);
    var b := if low in o then 1 else 0;
    PairHalves(b, j);
    assert idx / 2 == j && idx % 2 == b;
    assert |m - {low}| == |m| - 1;
    OccupancyPeel(idx, |m|, m);
    var tail := Occupancy(idx / 2, |m| - 1, m - {low});
    assert tail == o - {low};
    Reassemble(o, low, b == 1, Occupancy(idx, |m|, m), tail);
  }

  lemma Reassemble(o: set<int>, low: int, bit: bool, occupied: set<int>, tail: set<int>)
    requires bit == (low in o) && tail == o - {low}
    requires occupied == (if bit then {low} else {}) + tail
    ensures occupied == o
  {
  }

  /** Distinct indices below 2^|m| name distinct occupancies: the 2^|m| variations are all different. */
  lemma OccupanciesDistinct(i: int, j: int, m: set<int>)
    requires OnBoardSquares(m) && 0 <= i < Pow2(|m|) && 0 <= j < Pow2(|m|) && i != j
    ensures Occupancy(i, |m|, m) != Occupancy(j, |m|, m)
  {
    IndexOfOccupancy(i, m);
    IndexOfOccupancy(j, m);
  }

  /** The lowest square of a bitboard is the least of its squares; an empty bitboard has none. */
  lemma LeastOfBitboard(b: Bitboard)
    ensures b == 0 <==> Least(Squares(b), 0) == 64
    ensures b != 0 ==> LowestSquare(b) == Least(Squares(b), 0)
  {
    ZeroIsEmpty(b);
    if b == 0 {
      assert forall s :: s !in Squares(b);
    }
  }

  /** The bitboard holding exactly the squares of m. */
  function FromSquares(m: set<int>): (b: Bitboard)
    requires OnBoardSquares(m)
    ensures Squares(b) == m
    decreases |m|
  {
    var low := Least(m, 0);
    if low == 64 then
      NoLeastIsEmpty(m);
      SquaresZero();
      0
    else
      var rest := FromSquares(m - {low});
      Reinsert(m, low, Squares(rest));
      SetBit(rest, low)
  }

  lemma Reinsert(m: set<int>, x: int, rest: set<int>)
    requires x in m && rest == m - {x}
    ensures rest + {x} == m
  {
  }

  lemma EmptyUnion(t: set<int>)
    ensures {} + t == t
  {
  }

  lemma UnionEmpty(a: set<int>, t: set<int>)
    requires a + {} == t
    ensures a == t
  {
  }

  /** Occupying the lowest mask square as bit 0 of x says leaves the rest of the mask to x / 2. */
  lemma OccupancyAdvance(before: set<int>, after: set<int>, x: int, n: int, low: int, m: set<int>, target: set<int>)
    requires 0 < n && low == Least(m, 0) && low < 64
    requires after == if x % 2 == 1 then before + {low} else before
    requires before + Occupancy(x, n, m) == target
    ensures after + Occupancy(x / 2, n - 1, m - {low}) == target
  {
  }

  lemma RemoveOne(s: set<int>, x: int, rest: set<int>)
    requires x in s && rest == s - {x}
    ensures |rest| == |s| - 1
  {
  }

  /**
   * One round of the loop below: take the lowest square left in the mask and
   * occupy it if bit `currentBit` of the index says so. Ghost `x` is the
   * index shifted right by `currentBit`, `m` the number of rounds still to run.
   */
  method OccupancyStep(occupancyIndex: int, currentBit: nat, mask: Bitboard, bitboard: Bitboard,
                       ghost x: int, ghost m: int, ghost target: set<int>)
      returns (ok: bool, maskAfter: Bitboard, bitboardAfter: Bitboard)
    requires 0 < m && x == Shifted(occupancyIndex, currentBit)
    requires Squares(bitboard) + Occupancy(x, m, Squares(mask)) == target
    ensures ok <==> mask != 0
    ensures x / 2 == Shifted(occupancyIndex, currentBit + 1)
    ensures ok ==> PopCount(maskAfter) == PopCount(mask) - 1
    ensures ok ==> Squares(bitboardAfter) + Occupancy(x / 2, m - 1, Squares(maskAfter)) == target
  {
    ShiftedOnce(occupancyIndex, currentBit);
    LeastOfBitboard(mask);
    var square := GetLS1BIndex(mask);
    if square.Failure? {
      return false, mask, bitboard;
    }
    var squareIndex := square.value;
    bitboardAfter := bitboard;
    if IndexBit(occupancyIndex, currentBit) {
      bitboardAfter := SetBit(bitboard, squareIndex);
    }
    LeastOfBitboard(mask);
    assert squareIndex in Squares(mask);
    OccupancyAdvance(Squares(bitboard), Squares(bitboardAfter), x, m, squareIndex, Squares(mask), target);
    ok, maskAfter := true, PopBit(mask, squareIndex);
    RemoveOne(Squares(mask), squareIndex, Squares(maskAfter));
  }

  /**
   * The occupancyIndex-th variation of occupied squares within an attack
   * mask: one bit of the index per mask square, the lowest square first, for
   * the first relevantBits squares. A mask with fewer squares runs out, and
   * the lowest-bit lookup on the empty remainder fails.
   */
  method GenerateOccupancy(occupancyIndex: int, relevantBits: int, attackMask: Bitboard)
      returns (r: Result<Bitboard>)
    ensures r.Success? <==> relevantBits <= PopCount(attackMask)
    ensures r.Success? ==> Squares(r.value) == Occupancy(occupancyIndex, relevantBits, Squares(attackMask))
    ensures r.Failure? ==> r.error == LSBOfEmptyBitboard
  {
    ghost var target := Occupancy(occupancyIndex, relevantBits, Squares(attackMask));
    var bitboard: Bitboard := 0;
    var mask := attackMask;
    SquaresZero();
    var currentBit: nat := 0;
    ghost var x := occupancyIndex;
    EmptyUnion(target);
    while currentBit < relevantBits
      invariant currentBit + PopCount(mask) == PopCount(attackMask)
      invariant x == Shifted(occupancyIndex, currentBit)
      invariant Squares(bitboard) + Occupancy(x, relevantBits - currentBit, Squares(mask)) == target
    {
      var ok;
      ok, mask, bitboard := OccupancyStep(occupancyIndex, currentBit, mask, bitboard, x, relevantBits - currentBit, target);
      if !ok {
        return Failure(LSBOfEmptyBitboard);
      }
      x := x / 2;
      currentBit := currentBit + 1;
    }
    UnionEmpty(Squares(bitboard), target);
    return Success(bitboard);
  }
}
