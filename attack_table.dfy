/**
 * The precomputed attack tables of AttackTable.h / AttackTable.cpp: leaper
 * tables copied from the mask functions, and for each slider square a row
 * indexed by the magic hash of the blockers on the relevant mask.
 */
module AttackTables {
  import opened Wrappers
  import opened Bitboards
  import opened Geometry
  import opened Occupancies
  import opened LeaperMasks
  import opened SliderAttacks
  import opened MagicSearch

  /** Slots per square of the bishop and rook tables. */
  const BISHOP_TABLE_SIZE := 512
  const ROOK_TABLE_SIZE := 4096

  /** The slot variation i of `mask` hashes to under `magic`. */
  ghost function SlotOf(mask: Bitboard, magic: Bitboard, bits: int): int -> int
    requires 1 <= bits <= 12
  {
    i => MagicIndex(Variation(mask, bits, i), magic, bits)
  }

  /** The ray-cast attacks of variation i of `mask` for a slider on s. */
  ghost function WantOf(isBishop: bool, s: int, mask: Bitboard, bits: int): int -> set<int>
  {
    i => SliderAttackSet(isBishop, s, Occupancy(i, bits, Squares(mask)))
  }

  /** Entries 0 .. count-1 are stored in row r: the slot of each holds the attacks it wants. */
  ghost predicate Stored(table: array2<Bitboard>, r: int, slot: int -> int, want: int -> set<int>, count: int)
    requires 0 <= r < table.Length0
    reads table
  {
    forall i :: 0 <= i < count ==> 0 <= slot(i) < table.Length1 && Squares(table[r, slot(i)]) == want(i)
  }

  /** Rows 0 .. n-1 each store their own entries. */
  ghost predicate RowsStored(table: array2<Bitboard>, slots: int -> int -> int, wants: int -> int -> set<int>, counts: int -> int, n: int)
    reads table
  {
    n <= table.Length0 && forall s :: 0 <= s < n ==> Stored(table, s, slots(s), wants(s), counts(s))
  }

  lemma RowsStoredExtend(table: array2<Bitboard>, slots: int -> int -> int, wants: int -> int -> set<int>, counts: int -> int, n: int)
    requires 0 <= n < table.Length0 && RowsStored(table, slots, wants, counts, n) && Stored(table, n, slots(n), wants(n), counts(n))
    ensures RowsStored(table, slots, wants, counts, n + 1)
  {
  }

  /** Entries that share a slot want the same attacks. */
  ghost predicate Consistent(slot: int -> int, want: int -> set<int>, count: int)
  {
    forall i, j :: 0 <= i < count && 0 <= j < count && slot(i) == slot(j) ==> want(i) == want(j)
  }

  /** A separating magic makes the variations of its mask consistent. */
  lemma SeparatesConsistent(mask: Bitboard, isBishop: bool, s: int, bits: int, magic: Bitboard)
    requires 1 <= bits <= 12
    requires Separates(mask, isBishop, s, bits, magic)
    ensures Consistent(SlotOf(mask, magic, bits), WantOf(isBishop, s, mask, bits), MaxOccupancyIndex(bits))
  {
    var slot, want := SlotOf(mask, magic, bits), WantOf(isBishop, s, mask, bits);
    forall i, j | 0 <= i < MaxOccupancyIndex(bits) && 0 <= j < MaxOccupancyIndex(bits) && slot(i) == slot(j)
      ensures want(i) == want(j)
    {
      assert MagicIndex(Variation(mask, bits, i), magic, bits) == MagicIndex(Variation(mask, bits, j), magic, bits);
    }
  }

  /**
   * One write of the inner loop of initializeSlidingPieceTables: entry k
   * goes to its slot, and the earlier entries survive because entries
   * sharing a slot want the same attacks.
   */
  method StoreVariation(table: array2<Bitboard>, squareIndex: int, ghost slot: int -> int, ghost want: int -> set<int>,
                        ghost occupancyIndex: int, ghost count: int, magicIndex: int, attacks: Bitboard,
                        ghost slots: int -> int -> int, ghost wants: int -> int -> set<int>, ghost counts: int -> int)
    requires 0 <= squareIndex < table.Length0 && 0 <= occupancyIndex < count
    requires magicIndex == slot(occupancyIndex) && 0 <= magicIndex < table.Length1
    requires Squares(attacks) == want(occupancyIndex)
    requires Stored(table, squareIndex, slot, want, occupancyIndex) && Consistent(slot, want, count)
    requires RowsStored(table, slots, wants, counts, squareIndex)
    modifies table
    ensures Stored(table, squareIndex, slot, want, occupancyIndex + 1)
    ensures RowsStored(table, slots, wants, counts, squareIndex)
  {
    table[squareIndex, magicIndex] := attacks;
    forall i | 0 <= i < occupancyIndex + 1
      ensures 0 <= slot(i) < table.Length1 && Squares(table[squareIndex, slot(i)]) == want(i)
    {
      if slot(i) == magicIndex {
        assert want(i) == want(occupancyIndex);
      }
    }
    forall r | 0 <= r < squareIndex
      ensures Stored(table, r, slots(r), wants(r), counts(r))
    {
      assert old(Stored(table, r, slots(r), wants(r), counts(r)));
    }
  }

  /**
   * The inner loop of initializeSlidingPieceTables for one square: every
   * variation of the mask, hashed with `magic` on `indexBits` bits (the
   * constant table), receives its ray-cast attacks.
   */
  method FillRow(table: array2<Bitboard>, squareIndex: int, fBishop: bool, attackMask: Bitboard, magic: Bitboard,
                 relevantBits: int, maxOccupancyIndex: int, indexBits: int,
                 ghost slots: int -> int -> int, ghost wants: int -> int -> set<int>, ghost counts: int -> int)
    requires 0 <= squareIndex < table.Length0 && squareIndex < 64
    requires relevantBits == PopCount(attackMask) && relevantBits == indexBits && 1 <= indexBits <= 12
    requires maxOccupancyIndex == MaxOccupancyIndex(relevantBits) && maxOccupancyIndex <= table.Length1
    requires Separates(attackMask, fBishop, squareIndex, indexBits, magic)
    requires RowsStored(table, slots, wants, counts, squareIndex)
    modifies table
    ensures Stored(table, squareIndex, SlotOf(attackMask, magic, indexBits), WantOf(fBishop, squareIndex, attackMask, indexBits),
                   MaxOccupancyIndex(indexBits))
    ensures RowsStored(table, slots, wants, counts, squareIndex)
  {
    ghost var slot, want := SlotOf(attackMask, magic, indexBits), WantOf(fBishop, squareIndex, attackMask, indexBits);
    SeparatesConsistent(attackMask, fBishop, squareIndex, indexBits, magic);
    for occupancyIndex := 0 to maxOccupancyIndex
      invariant Stored(table, squareIndex, slot, want, occupancyIndex)
      invariant RowsStored(table, slots, wants, counts, squareIndex)
    {
      var generated := GenerateOccupancy(occupancyIndex, relevantBits, attackMask);
      var occupancy := generated.value;
      IsVariation(occupancy, attackMask, relevantBits, occupancyIndex);
      var magicIndex := MagicIndex(occupancy, magic, indexBits);
      var attacks;
      if fBishop {
        attacks := GenerateBishopAttacks(squareIndex, occupancy);
      } else {
        attacks := GenerateRookAttacks(squareIndex, occupancy);
      }
      StoreVariation(table, squareIndex, slot, want, occupancyIndex, maxOccupancyIndex, magicIndex, attacks, slots, wants, counts);
    }
  }

  /** The occupancy cut down to the mask is the variation numbered by its squares on the mask. */
  lemma MaskedVariation(occupancy: Bitboard, mask: Bitboard, bits: int)
    requires OnBoardSquares(Squares(mask)) && bits == |Squares(mask)| && 1 <= bits <= 12
    ensures 0 <= OccupancyIndex(Squares(occupancy) * Squares(mask), Squares(mask)) < Pow2(bits)
    ensures Occupancy(OccupancyIndex(Squares(occupancy) * Squares(mask), Squares(mask)), bits, Squares(mask)) ==
            Squares(occupancy) * Squares(mask)
    ensures occupancy & mask == Variation(mask, bits, OccupancyIndex(Squares(occupancy) * Squares(mask), Squares(mask)))
  {
    var relevant := Squares(occupancy) * Squares(mask);
    var i := OccupancyIndex(relevant, Squares(mask));
    OccupancyOfIndex(relevant, Squares(mask));
    SquaresAnd(occupancy, mask);
    IsVariation(occupancy & mask, mask, bits, i);
  }

  /**
   * The lookup on one row, for any stored attacks: the slot of
   * `occupancy & mask` holds the entry of the variation equal to the
   * occupancy's squares on the mask.
   */
  lemma RowLookup(table: array2<Bitboard>, r: int, mask: Bitboard, magic: Bitboard, bits: int, want: int -> set<int>, occupancy: Bitboard)
    requires 0 <= r < table.Length0 && OnBoardSquares(Squares(mask)) && bits == |Squares(mask)| && 1 <= bits <= 12
    requires Stored(table, r, SlotOf(mask, magic, bits), want, MaxOccupancyIndex(bits))
    ensures MagicIndex(occupancy & mask, magic, bits) < table.Length1
    ensures Occupancy(OccupancyIndex(Squares(occupancy) * Squares(mask), Squares(mask)), bits, Squares(mask)) ==
            Squares(occupancy) * Squares(mask)
    ensures Squares(table[r, MagicIndex(occupancy & mask, magic, bits)]) == want(OccupancyIndex(Squares(occupancy) * Squares(mask), Squares(mask)))
  {
    MaskedVariation(occupancy, mask, bits);
    var i := OccupancyIndex(Squares(occupancy) * Squares(mask), Squares(mask));
    assert SlotOf(mask, magic, bits)(i) == MagicIndex(occupancy & mask, magic, bits);
  }

  /**
   * The entry a slider lookup reads in row s of a table: the occupancy is
   * cut down to the mask, multiplied by the magic and shifted down to the
   * width, and the result picks the column.
   */
  function SlidingEntry(table: array2<Bitboard>, s: int, occupancy: Bitboard, mask: Bitboard, magic: Bitboard, bits: int): Bitboard
    requires 0 <= s < table.Length0 && 1 <= bits <= 12 && Pow2(bits) <= table.Length1
    reads table
  {
    table[s, MagicIndex(occupancy & mask, magic, bits)]
  }

  /**
   * Row s of a table is ready for lookups with this mask, magic and width:
   * the mask holds the slider's relevant squares, the width is their number,
   * and every variation's slot holds that variation's ray-cast attacks.
   */
  ghost predicate RowReady(isBishop: bool, s: int, table: array2<Bitboard>, mask: Bitboard, magic: Bitboard, bits: int)
    reads table
  {
    0 <= s < table.Length0 && s < 64 && 1 <= bits <= 12 && Pow2(bits) <= table.Length1 &&
    bits == PopCount(mask) && Squares(mask) == SliderMaskSet(isBishop, s) &&
    Stored(table, s, SlotOf(mask, magic, bits), WantOf(isBishop, s, mask, bits), MaxOccupancyIndex(bits))
  }

  /**
   * The lookup theorem on one row: when a row stores every variation of the
   * slider's relevant mask at its magic slot, the slot of `occupancy & mask`
   * holds the ray-cast attacks for the full occupancy.
   */
  lemma SliderLookup(isBishop: bool, s: int, occupancy: Bitboard, table: array2<Bitboard>, mask: Bitboard, magic: Bitboard, bits: int)
    requires RowReady(isBishop, s, table, mask, magic, bits)
    ensures Squares(SlidingEntry(table, s, occupancy, mask, magic, bits)) == SliderAttackSet(isBishop, s, Squares(occupancy))
  {
    var index := MagicIndex(occupancy & mask, magic, bits);
    assert OnBoardSquares(Squares(mask)) by {
      SliderMaskOnBoard(isBishop, s);
    }
    assert Squares(table[s, index]) == SliderAttackSet(isBishop, s, Squares(occupancy) * Squares(mask)) by {
      RowLookup(table, s, mask, magic, bits, WantOf(isBishop, s, mask, bits), occupancy);
    }
    assert SliderAttackSet(isBishop, s, Squares(occupancy) * Squares(mask)) == SliderAttackSet(isBishop, s, Squares(occupancy)) by {
      SliderRelevant(isBishop, s, Squares(occupancy));
    }
  }

  /** A lookup sees only the occupied squares on the mask: occupancies that agree there read the same entry. */
  lemma SliderMaskedOnly(table: array2<Bitboard>, s: int, occupancy: Bitboard, other: Bitboard, mask: Bitboard, magic: Bitboard, bits: int)
    requires 0 <= s < table.Length0 && 1 <= bits <= 12 && Pow2(bits) <= table.Length1
    requires Squares(occupancy) * Squares(mask) == Squares(other) * Squares(mask)
    ensures SlidingEntry(table, s, occupancy, mask, magic, bits) == SlidingEntry(table, s, other, mask, magic, bits)
  {
    SquaresAnd(occupancy, mask);
    SquaresAnd(other, mask);
    Extensionality(occupancy & mask, other & mask);
  }

  /**
   * The number of squares of a slider's relevant mask. Widths are compared
   * through this name so that a width is only worked out where a proof asks
   * for it.
   */
  ghost function MaskWidth(isBishop: bool, s: int): nat
  {
    |SliderMaskSet(isBishop, s)|
  }

  /** The slot functions of the rows of a slider table, one per square, over the relevant masks. */
  ghost function SlotsOf(masks: seq<Bitboard>, magics: seq<Bitboard>, bits: seq<int>): int -> int -> int
  {
    s => if 0 <= s < |masks| && s < |magics| && s < |bits| && 1 <= bits[s] <= 12 then SlotOf(masks[s], magics[s], bits[s]) else i => 0
  }

  /** The wanted attacks of the rows of a slider table, one per square. */
  ghost function WantsOf(isBishop: bool, masks: seq<Bitboard>, bits: seq<int>): int -> int -> set<int>
  {
    s => if 0 <= s < |masks| && s < |bits| then WantOf(isBishop, s, masks[s], bits[s]) else i => {}
  }

  /** The relevant masks of a slider, square by square. */
  ghost function RelevantMasks(isBishop: bool): (masks: seq<Bitboard>)
    ensures |masks| == 64
  {
    seq(64, s => SliderMask(isBishop, s))
  }

  /** The number of variations of the rows of a slider table, one per square. */
  ghost function CountsOf(bits: seq<int>): int -> int
  {
    s => if 0 <= s < |bits| && 1 <= bits[s] <= 12 then MaxOccupancyIndex(bits[s]) else 0
  }

  /** Zero times any mask leaves no bit in the top byte, so the search never accepts 0. */
  lemma ZeroNotDense(mask: Bitboard)
    ensures !DenseEnough(mask, 0)
  {
    assert (mask * 0) & 0xFF00_0000_0000_0000 == 0;
    SquaresZero();
  }

  /** The magic a search returns separates the variations of its mask. */
  lemma FirstAcceptedSeparates(mask: Bitboard, isBishop: bool, s: int, bits: int, candidates: nat -> Bitboard, magic: Bitboard)
    requires 1 <= bits <= 12 && FirstAccepted(mask, isBishop, s, bits, candidates, magic)
    ensures Separates(mask, isBishop, s, bits, magic) && magic != 0
  {
    var k: nat :| k < MAX_ATTEMPTS && candidates(k) == magic && Accepted(mask, isBishop, s, bits, magic) &&
      NoneAccepted(mask, isBishop, s, bits, candidates, k);
    ZeroNotDense(mask);
  }

  lemma {:induction false} Pow2Monotone(n: nat, m: nat)
    requires n <= m
    ensures Pow2(n) <= Pow2(m)
  {
    if n < m {
      Pow2Monotone(n, m - 1);
    }
  }

  /** The attack sets wanted of the entries of a leaper table. */
  ghost function PawnSets(side: int): int -> set<int>
  {
    s => PawnAttackSet(side, s)
  }

  ghost function KnightSets(): int -> set<int>
  {
    s => KnightAttackSet(s)
  }

  ghost function KingSets(): int -> set<int>
  {
    s => KingAttackSet(s)
  }

  /** The relevant masks, as the sets wanted of the entries of a mask table. */
  ghost function MaskSets(isBishop: bool): int -> set<int>
  {
    s => SliderMaskSet(isBishop, s)
  }

  /** The squares of a union, for a union already named. */
  lemma UnionSquares(a: Bitboard, c: Bitboard, union: Bitboard, aSquares: set<int>, cSquares: set<int>)
    requires union == a | c && Squares(a) == aSquares && Squares(c) == cSquares
    ensures Squares(union) == aSquares + cSquares
  {
    SquaresOr(a, c);
  }

  /** The first n cells hold the wanted squares. */
  ghost predicate SetsMatch(cells: seq<Bitboard>, want: int -> set<int>, n: int)
  {
    n <= |cells| && forall t :: 0 <= t < n ==> Squares(cells[t]) == want(t)
  }

  lemma SetsMatchExtend(cells: seq<Bitboard>, want: int -> set<int>, n: int, x: Bitboard)
    requires 0 <= n < |cells| && SetsMatch(cells, want, n) && Squares(x) == want(n)
    ensures SetsMatch(cells[n := x], want, n + 1)
  {
  }

  /** Writes entry n of a table whose first n entries match. */
  method StoreEntry(a: array<Bitboard>, n: int, ghost want: int -> set<int>, x: Bitboard)
    requires 0 <= n < a.Length && SetsMatch(a[..], want, n) && Squares(x) == want(n)
    modifies a
    ensures a[..] == old(a[..])[n := x] && SetsMatch(a[..], want, n + 1)
    ensures SetsMatch(old(a[..]), want, n + 1) ==> a[..] == old(a[..])
  {
    ghost var before := a[..];
    SetsMatchExtend(before, want, n, x);
    if SetsMatch(before, want, n + 1) {
      Extensionality(before[n], x);
    }
    a[n] := x;
  }

  /** The first n cells of row r hold the wanted squares. */
  ghost predicate CellsMatch(table: array2<Bitboard>, r: int, want: int -> set<int>, n: int)
    requires 0 <= r < table.Length0 && n <= table.Length1
    reads table
  {
    forall t :: 0 <= t < n ==> Squares(table[r, t]) == want(t)
  }

  /** Writes cell n of row r, keeping what another row holds. */
  method StoreCell(table: array2<Bitboard>, r: int, n: int, ghost want: int -> set<int>, x: Bitboard,
                   ghost other: int, ghost otherWant: int -> set<int>, ghost m: int)
    requires 0 <= r < table.Length0 && 0 <= other < table.Length0 && r != other
    requires 0 <= n < table.Length1 && m <= table.Length1
    requires CellsMatch(table, r, want, n) && Squares(x) == want(n) && CellsMatch(table, other, otherWant, m)
    modifies table
    ensures CellsMatch(table, r, want, n + 1) && CellsMatch(table, other, otherWant, m)
  {
    table[r, n] := x;
  }

  /** The magic stored for square s is the one the search of s returns. */
  ghost function FoundBy(isBishop: bool, bits: seq<int>, candidates: int -> nat -> Bitboard): (int, Bitboard) -> bool
  {
    (s, magic) => 0 <= s < 64 && s < |bits| && 1 <= bits[s] <= 12 &&
      FirstAccepted(SliderMask(isBishop, s), isBishop, s, bits[s], candidates(s), magic)
  }

  /** The magic stored for square s separates the variations of its relevant mask. */
  ghost function SeparatedBy(isBishop: bool, bits: seq<int>): (int, Bitboard) -> bool
  {
    (s, magic) => 0 <= s < 64 && s < |bits| && 1 <= bits[s] <= 12 && Separates(SliderMask(isBishop, s), isBishop, s, bits[s], magic)
  }

  /** The first n magics are the ones found. */
  ghost predicate AllFound(magics: seq<Bitboard>, found: (int, Bitboard) -> bool, n: int)
  {
    n <= |magics| && forall s :: 0 <= s < n ==> found(s, magics[s])
  }

  /** Writes entry n of a magic array with a found magic. */
  method StoreMagic(a: array<Bitboard>, n: int, ghost found: (int, Bitboard) -> bool, x: Bitboard)
    requires 0 <= n < a.Length && AllFound(a[..], found, n) && found(n, x)
    modifies a
    ensures AllFound(a[..], found, n + 1)
  {
    a[n] := x;
    assert forall s :: 0 <= s < n ==> a[..][s] == old(a[..])[s];
  }

  /** A magic search for one slider on one square ended in `error`. */
  ghost predicate SearchFailed(isBishop: bool, s: int, bits: int, candidates: nat -> Bitboard, error: EngineError)
    requires 0 <= s < 64 && 1 <= bits <= 12
  {
    (error == LSBOfEmptyBitboard && bits > |SliderMaskSet(isBishop, s)|) ||
    (error == CannotFindMagicNumber && NoneAccepted(SliderMask(isBishop, s), isBishop, s, bits, candidates, MAX_ATTEMPTS))
  }

  /**
   * The engine's attack tables. The relevant-bit tables of const.h, which
   * fix each square's index width, are inputs of the constructor.
   */
  class AttackTable {
    const pawnAttacks: array2<Bitboard>
    const knightAttacks: array<Bitboard>
    const kingAttacks: array<Bitboard>
    const bishopAttacks: array2<Bitboard>
    const rookAttacks: array2<Bitboard>
    const bishopMasks: array<Bitboard>
    const rookMasks: array<Bitboard>
    const bishopMagics: array<Bitboard>
    const rookMagics: array<Bitboard>
    const bishopRelevantBits: seq<int>
    const rookRelevantBits: seq<int>

    /** Table shapes, distinct tables, and index widths that fit the 512 and 4096 slots. */
    ghost predicate Valid()
    {
      Shaped() && Separate() && WidthsFit()
    }

    /** The dimensions the header declares. */
    ghost predicate Shaped()
    {
      pawnAttacks.Length0 == 2 && pawnAttacks.Length1 == 64 &&
      knightAttacks.Length == 64 && kingAttacks.Length == 64 &&
      bishopAttacks.Length0 == 64 && bishopAttacks.Length1 == BISHOP_TABLE_SIZE &&
      rookAttacks.Length0 == 64 && rookAttacks.Length1 == ROOK_TABLE_SIZE &&
      bishopMasks.Length == 64 && rookMasks.Length == 64 && bishopMagics.Length == 64 && rookMagics.Length == 64
    }

    /** No two tables share storage. */
    ghost predicate Separate()
    {
      pawnAttacks != bishopAttacks && pawnAttacks != rookAttacks && bishopAttacks != rookAttacks &&
      knightAttacks != kingAttacks && knightAttacks != bishopMasks && knightAttacks != rookMasks &&
      knightAttacks != bishopMagics && knightAttacks != rookMagics &&
      kingAttacks != bishopMasks && kingAttacks != rookMasks && kingAttacks != bishopMagics && kingAttacks != rookMagics &&
      bishopMasks != rookMasks && bishopMasks != bishopMagics && bishopMasks != rookMagics &&
      rookMasks != bishopMagics && rookMasks != rookMagics && bishopMagics != rookMagics
    }

    /** Every width selects between 2 and 512 (bishop) or 4096 (rook) slots. */
    ghost predicate WidthsFit()
    {
      |bishopRelevantBits| == 64 && |rookRelevantBits| == 64 &&
      (forall s :: 0 <= s < 64 ==> 1 <= bishopRelevantBits[s] <= 9 && 1 <= rookRelevantBits[s] <= 12)
    }

    /** The arrays the lookups read. */
    ghost function Tables(): set<object>
    {
      {pawnAttacks, knightAttacks, kingAttacks, bishopAttacks, rookAttacks, bishopMasks, rookMasks, bishopMagics, rookMagics}
    }

    function Table(isBishop: bool): array2<Bitboard>
    {
      if isBishop then bishopAttacks else rookAttacks
    }

    function Magics(isBishop: bool): array<Bitboard>
    {
      if isBishop then bishopMagics else rookMagics
    }

    function Masks(isBishop: bool): array<Bitboard>
    {
      if isBishop then bishopMasks else rookMasks
    }

    function RelevantBits(isBishop: bool): seq<int>
    {
      if isBishop then bishopRelevantBits else rookRelevantBits
    }

    /** The const.h widths are the sizes of the relevant masks. */
    ghost predicate RelevantBitsMatch()
      requires Valid()
    {
      forall isBishop: bool, s {:trigger MaskWidth(isBishop, s)} :: 0 <= s < 64 ==> RelevantBits(isBishop)[s] == MaskWidth(isBishop, s)
    }

    /** Both magics of every square below n are the ones the searches return. */
    ghost predicate MagicsFound(bishopCandidates: int -> nat -> Bitboard, rookCandidates: int -> nat -> Bitboard, n: int)
      reads bishopMagics, rookMagics
    {
      AllFound(bishopMagics[..], FoundBy(true, bishopRelevantBits, bishopCandidates), n) &&
      AllFound(rookMagics[..], FoundBy(false, rookRelevantBits, rookCandidates), n)
    }

    /** Every magic of one slider separates the variations of its square's mask. */
    ghost predicate MagicsSeparate(isBishop: bool)
      reads Magics(isBishop)
    {
      AllFound(Magics(isBishop)[..], SeparatedBy(isBishop, RelevantBits(isBishop)), 64)
    }

    /** The leaper entries of the squares below n hold the leaper attack sets. */
    ghost predicate LeapersReady(n: int)
      requires Valid() && 0 <= n <= 64
      reads pawnAttacks, knightAttacks, kingAttacks
    {
      CellsMatch(pawnAttacks, WHITE, PawnSets(WHITE), n) && CellsMatch(pawnAttacks, BLACK, PawnSets(BLACK), n) &&
      SetsMatch(knightAttacks[..], KnightSets(), n) && SetsMatch(kingAttacks[..], KingSets(), n)
    }

    /** The masks of the squares below n hold the relevant masks. */
    ghost predicate MasksReady(n: int)
      reads bishopMasks, rookMasks
    {
      SetsMatch(bishopMasks[..], MaskSets(true), n) && SetsMatch(rookMasks[..], MaskSets(false), n)
    }

    /** Rows 0 .. n-1 of a slider's table store every variation of the relevant mask at its magic slot. */
    ghost predicate SlidingReady(isBishop: bool, masks: seq<Bitboard>, n: int)
      reads Table(isBishop), Magics(isBishop)
    {
      RowsStored(Table(isBishop), SlotsOf(masks, Magics(isBishop)[..], RelevantBits(isBishop)),
                 WantsOf(isBishop, masks, RelevantBits(isBishop)), CountsOf(RelevantBits(isBishop)), n)
    }

    /** The state the constructor leaves behind when no exception escapes it. */
    ghost predicate Ready()
      reads pawnAttacks, knightAttacks, kingAttacks, bishopAttacks, rookAttacks, bishopMasks, rookMasks, bishopMagics, rookMagics
    {
      Valid() && RelevantBitsMatch() &&
      forall n {:trigger LeapersReady(n)} :: n == 64 ==>
        LeapersReady(n) && MasksReady(n) && SlidingReady(true, RelevantMasks(true), n) && SlidingReady(false, RelevantMasks(false), n)
    }

    /** The tables of a built instance, square by square. */
    lemma ReadyParts()
      requires Ready()
      ensures LeapersReady(64) && MasksReady(64)
      ensures SlidingReady(true, RelevantMasks(true), 64) && SlidingReady(false, RelevantMasks(false), 64)
    {
      ghost var leapers := LeapersReady(64);
    }

    /** The leaper tables of a built instance, square by square. */
    lemma ReadyLeapers()
      requires Ready()
      ensures LeapersReady(64)
    {
      ghost var leapers := LeapersReady(64);
    }

    /** Zero-filled tables, as for the engine's global instance before its constructor body runs. */
    constructor(bishopBits: seq<int>, rookBits: seq<int>)
      requires |bishopBits| == 64 && |rookBits| == 64
      requires forall s :: 0 <= s < 64 ==> 1 <= bishopBits[s] <= 9 && 1 <= rookBits[s] <= 12
      ensures Valid() && bishopRelevantBits == bishopBits && rookRelevantBits == rookBits
      ensures fresh(pawnAttacks) && fresh(knightAttacks) && fresh(kingAttacks) && fresh(bishopAttacks) && fresh(rookAttacks)
      ensures fresh(bishopMasks) && fresh(rookMasks) && fresh(bishopMagics) && fresh(rookMagics)
    {
      pawnAttacks := new Bitboard[2, 64]((side, s) => 0);
      knightAttacks := new Bitboard[64](s => 0);
      kingAttacks := new Bitboard[64](s => 0);
      bishopAttacks := new Bitboard[64, BISHOP_TABLE_SIZE]((s, c) => 0);
      rookAttacks := new Bitboard[64, ROOK_TABLE_SIZE]((s, c) => 0);
      bishopMasks := new Bitboard[64](s => 0);
      rookMasks := new Bitboard[64](s => 0);
      bishopMagics := new Bitboard[64](s => 0);
      rookMagics := new Bitboard[64](s => 0);
      bishopRelevantBits := bishopBits;
      rookRelevantBits := rookBits;
    }

    /**
     * The constructor body: magics, then the leaper tables, then the bishop
     * and rook tables. With the const.h widths no search runs out of mask
     * squares, so only an exhausted candidate budget can stop it; and once
     * the magics exist the leaper guard never fires.
     */
    method Initialize(bishopCandidates: int -> nat -> Bitboard, rookCandidates: int -> nat -> Bitboard) returns (r: Result<()>)
      requires Valid() && RelevantBitsMatch()
      modifies pawnAttacks, knightAttacks, kingAttacks, bishopAttacks, rookAttacks, bishopMasks, rookMasks, bishopMagics, rookMagics
      ensures r.Success? ==> Ready() && MagicsFound(bishopCandidates, rookCandidates, 64)
      ensures r.Failure? ==> r.error == CannotFindMagicNumber
      ensures r.Failure? ==>
        exists s :: 0 <= s < 64 && MagicsFound(bishopCandidates, rookCandidates, s) &&
          (SearchFailed(true, s, bishopRelevantBits[s], bishopCandidates(s), r.error) ||
           SearchFailed(false, s, rookRelevantBits[s], rookCandidates(s), r.error))
    {
      r := InitializeMagicNumbers(bishopCandidates, rookCandidates);
      if r.Failure? {
        ghost var s :| 0 <= s < 64 && MagicsFound(bishopCandidates, rookCandidates, s) &&
          (SearchFailed(true, s, bishopRelevantBits[s], bishopCandidates(s), r.error) ||
           SearchFailed(false, s, rookRelevantBits[s], rookCandidates(s), r.error));
        assert RelevantBits(true)[s] == MaskWidth(true, s) && RelevantBits(false)[s] == MaskWidth(false, s);
        return;
      }
      FinishTables(bishopCandidates, rookCandidates);
    }

    /** Once every magic is found, the leaper tables and then the slider tables. */
    method FinishTables(bishopCandidates: int -> nat -> Bitboard, rookCandidates: int -> nat -> Bitboard)
      requires Valid() && RelevantBitsMatch() && MagicsFound(bishopCandidates, rookCandidates, 64)
      modifies pawnAttacks, knightAttacks, kingAttacks, bishopAttacks, rookAttacks, bishopMasks, rookMasks
      ensures Ready() && MagicsFound(bishopCandidates, rookCandidates, 64)
    {
      FoundSeparates(bishopCandidates, rookCandidates);
      BuildTables();
    }

    /** The rest of the constructor body, once the magics exist. */
    method BuildTables()
      requires Valid() && RelevantBitsMatch() && MagicsSeparate(true) && MagicsSeparate(false)
      requires bishopMagics[0] != 0 && rookMagics[0] != 0
      modifies pawnAttacks, knightAttacks, kingAttacks, bishopAttacks, rookAttacks, bishopMasks, rookMasks
      ensures Ready()
    {
      var leaping := InitializeLeapingPieceTables();
      assert leaping.Success?;
      BuildSliders();
    }

    /** The two calls of initializeSlidingPieceTables. */
    method BuildSliders()
      requires Valid() && RelevantBitsMatch() && MagicsSeparate(true) && MagicsSeparate(false)
      modifies bishopAttacks, rookAttacks, bishopMasks, rookMasks
      ensures MasksReady(64) && SlidingReady(true, RelevantMasks(true), 64) && SlidingReady(false, RelevantMasks(false), 64)
    {
      InitializeSlidingPieceTables(true);
      InitializeSlidingPieceTables(false);
    }

    /** Found magics separate their masks' variations, and none of them is 0. */
    lemma FoundSeparates(bishopCandidates: int -> nat -> Bitboard, rookCandidates: int -> nat -> Bitboard)
      requires Valid() && MagicsFound(bishopCandidates, rookCandidates, 64)
      ensures MagicsSeparate(true) && MagicsSeparate(false) && bishopMagics[0] != 0 && rookMagics[0] != 0
    {
      forall s | 0 <= s < 64
        ensures Separates(SliderMask(true, s), true, s, bishopRelevantBits[s], bishopMagics[s]) && bishopMagics[s] != 0
        ensures Separates(SliderMask(false, s), false, s, rookRelevantBits[s], rookMagics[s]) && rookMagics[s] != 0
      {
        assert FoundBy(true, bishopRelevantBits, bishopCandidates)(s, bishopMagics[..][s]);
        assert FoundBy(false, rookRelevantBits, rookCandidates)(s, rookMagics[..][s]);
        FirstAcceptedSeparates(SliderMask(true, s), true, s, bishopRelevantBits[s], bishopCandidates(s), bishopMagics[s]);
        FirstAcceptedSeparates(SliderMask(false, s), false, s, rookRelevantBits[s], rookCandidates(s), rookMagics[s]);
      }
      assert forall s :: 0 <= s < 64 ==> SeparatedBy(true, bishopRelevantBits)(s, bishopMagics[..][s]);
      assert forall s :: 0 <= s < 64 ==> SeparatedBy(false, rookRelevantBits)(s, rookMagics[..][s]);
    }

    /**
     * initializeMagicNumbers: searches the bishop magic, then the rook magic,
     * of every square in turn; the first failing search ends the whole
     * initialisation. `bishopCandidates(s)` and `rookCandidates(s)` are the
     * random draws the two searches of square s make.
     */
    method InitializeMagicNumbers(bishopCandidates: int -> nat -> Bitboard, rookCandidates: int -> nat -> Bitboard)
      returns (r: Result<()>)
      requires Valid()
      modifies bishopMagics, rookMagics
      ensures r.Success? ==> MagicsFound(bishopCandidates, rookCandidates, 64)
      ensures r.Failure? ==>
        exists s :: 0 <= s < 64 && MagicsFound(bishopCandidates, rookCandidates, s) &&
          (SearchFailed(true, s, bishopRelevantBits[s], bishopCandidates(s), r.error) ||
           SearchFailed(false, s, rookRelevantBits[s], rookCandidates(s), r.error))
    {
      for squareIndex := 0 to 64
        invariant MagicsFound(bishopCandidates, rookCandidates, squareIndex)
      {
        var found := SearchSquare(bishopCandidates, rookCandidates, squareIndex);
        if found.Failure? {
          return found;
        }
      }
      r := Success(());
    }

    /** One iteration of the magic loop: the bishop search, then the rook search, of one square. */
    method SearchSquare(bishopCandidates: int -> nat -> Bitboard, rookCandidates: int -> nat -> Bitboard, squareIndex: int)
      returns (r: Result<()>)
      requires Valid() && 0 <= squareIndex < 64 && MagicsFound(bishopCandidates, rookCandidates, squareIndex)
      modifies bishopMagics, rookMagics
      ensures r.Success? ==> MagicsFound(bishopCandidates, rookCandidates, squareIndex + 1)
      ensures r.Failure? ==> MagicsFound(bishopCandidates, rookCandidates, squareIndex)
      ensures r.Failure? ==>
        SearchFailed(true, squareIndex, bishopRelevantBits[squareIndex], bishopCandidates(squareIndex), r.error) ||
        SearchFailed(false, squareIndex, rookRelevantBits[squareIndex], rookCandidates(squareIndex), r.error)
    {
      var bishop := FindMagicNumber(squareIndex, bishopRelevantBits[squareIndex], true, bishopCandidates(squareIndex));
      if bishop.Failure? {
        return Failure(bishop.error);
      }
      StoreMagic(bishopMagics, squareIndex, FoundBy(true, bishopRelevantBits, bishopCandidates), bishop.value);
      var rook := FindMagicNumber(squareIndex, rookRelevantBits[squareIndex], false, rookCandidates(squareIndex));
      if rook.Failure? {
        return Failure(rook.error);
      }
      StoreMagic(rookMagics, squareIndex, FoundBy(false, rookRelevantBits, rookCandidates), rook.value);
      r := Success(());
    }

    /** initializeLeapingPieceTables: refuses to run before the magics exist, then copies the leaper masks. */
    method InitializeLeapingPieceTables() returns (r: Result<()>)
      requires Valid()
      modifies pawnAttacks, knightAttacks, kingAttacks
      ensures r.Failure? <==> bishopMagics[0] == 0 || rookMagics[0] == 0
      ensures r.Failure? ==> r.error == MagicNumberNotInitialized && unchanged(pawnAttacks, knightAttacks, kingAttacks)
      ensures r.Success? ==> LeapersReady(64)
    {
      if bishopMagics[0] == 0 || rookMagics[0] == 0 {
        return Failure(MagicNumberNotInitialized);
      }
      for squareIndex := 0 to 64
        invariant LeapersReady(squareIndex)
      {
        StoreLeapers(squareIndex);
      }
      r := Success(());
    }

    /** One iteration of the leaper loop: the four entries of one square. */
    method StoreLeapers(squareIndex: int)
      requires Valid() && 0 <= squareIndex < 64 && LeapersReady(squareIndex)
      modifies pawnAttacks, knightAttacks, kingAttacks
      ensures LeapersReady(squareIndex + 1)
    {
      var white := MaskPawnAttacks(squareIndex, WHITE);
      var black := MaskPawnAttacks(squareIndex, BLACK);
      var knight := MaskKnightAttacks(squareIndex);
      var king := MaskKingAttacks(squareIndex);
      StoreCell(pawnAttacks, WHITE, squareIndex, PawnSets(WHITE), white, BLACK, PawnSets(BLACK), squareIndex);
      StoreCell(pawnAttacks, BLACK, squareIndex, PawnSets(BLACK), black, WHITE, PawnSets(WHITE), squareIndex + 1);
      StoreEntry(knightAttacks, squareIndex, KnightSets(), knight);
      StoreEntry(kingAttacks, squareIndex, KingSets(), king);
    }

    /**
     * initializeSlidingPieceTables: recomputes both relevant masks of every
     * square, then stores each variation of the chosen slider's mask at its
     * magic slot. Masks already in place are rewritten with the same values.
     */
    method InitializeSlidingPieceTables(fBishop: bool)
      requires Valid() && RelevantBitsMatch() && MagicsSeparate(fBishop)
      modifies bishopMasks, rookMasks, Table(fBishop)
      ensures MasksReady(64) && SlidingReady(fBishop, RelevantMasks(fBishop), 64)
      ensures old(MasksReady(64)) ==> bishopMasks[..] == old(bishopMasks[..]) && rookMasks[..] == old(rookMasks[..])
    {
      ghost var canon := RelevantMasks(fBishop);
      for squareIndex := 0 to 64
        invariant MasksReady(squareIndex) && SlidingReady(fBishop, canon, squareIndex)
        invariant old(MasksReady(64)) ==> bishopMasks[..] == old(bishopMasks[..]) && rookMasks[..] == old(rookMasks[..])
      {
        assert canon[squareIndex] == SliderMask(fBishop, squareIndex);
        assert SeparatedBy(fBishop, RelevantBits(fBishop))(squareIndex, Magics(fBishop)[..][squareIndex]);
        SlidingStep(fBishop, canon, squareIndex);
      }
    }

    /** One iteration of the sliding loop: the two masks of a square, then its row of the table. */
    method SlidingStep(fBishop: bool, ghost canon: seq<Bitboard>, squareIndex: int)
      requires Valid() && 0 <= squareIndex < 64 && |canon| == 64
      requires Squares(canon[squareIndex]) == SliderMaskSet(fBishop, squareIndex)
      requires RelevantBits(fBishop)[squareIndex] == MaskWidth(fBishop, squareIndex)
      requires Separates(canon[squareIndex], fBishop, squareIndex, RelevantBits(fBishop)[squareIndex], Magics(fBishop)[squareIndex])
      requires MasksReady(squareIndex) && SlidingReady(fBishop, canon, squareIndex)
      modifies bishopMasks, rookMasks, Table(fBishop)
      ensures MasksReady(squareIndex + 1) && SlidingReady(fBishop, canon, squareIndex + 1)
      ensures old(MasksReady(64)) ==> bishopMasks[..] == old(bishopMasks[..]) && rookMasks[..] == old(rookMasks[..])
    {
      var bishopMask, rookMask := StoreMasks(squareIndex, fBishop, canon);
      var attackMask := if fBishop then bishopMasks[squareIndex] else rookMasks[squareIndex];
      var relevantBits := GetPopulationCount(attackMask);
      var maxOccupancyIndex := MaxOccupancyIndex(relevantBits);
      Extensionality(attackMask, canon[squareIndex]);
      FillSquare(fBishop, canon, squareIndex, attackMask, relevantBits, maxOccupancyIndex);
    }

    /** The mask computations and writes of one iteration of the sliding loop. */
    method StoreMasks(squareIndex: int, ghost fBishop: bool, ghost canon: seq<Bitboard>) returns (bishopMask: Bitboard, rookMask: Bitboard)
      requires Valid() && 0 <= squareIndex < 64 && MasksReady(squareIndex) && SlidingReady(fBishop, canon, squareIndex)
      modifies bishopMasks, rookMasks
      ensures Squares(bishopMask) == BishopMaskSet(squareIndex) && Squares(rookMask) == RookMaskSet(squareIndex)
      ensures MasksReady(squareIndex + 1) && SlidingReady(fBishop, canon, squareIndex)
      ensures bishopMasks[..] == old(bishopMasks[..])[squareIndex := bishopMask]
      ensures rookMasks[..] == old(rookMasks[..])[squareIndex := rookMask]
      ensures old(MasksReady(64)) ==> bishopMasks[..] == old(bishopMasks[..]) && rookMasks[..] == old(rookMasks[..])
    {
      bishopMask := MaskBishopAttacks(squareIndex);
      rookMask := MaskRookAttacks(squareIndex);
      StoreEntry(bishopMasks, squareIndex, MaskSets(true), bishopMask);
      StoreEntry(rookMasks, squareIndex, MaskSets(false), rookMask);
    }

    /** The occupancy loop of one square of the sliding loop. */
    method FillSquare(fBishop: bool, ghost masks: seq<Bitboard>, squareIndex: int, attackMask: Bitboard, relevantBits: int,
                      maxOccupancyIndex: int)
      requires Valid() && 0 <= squareIndex < 64 && |masks| == 64 && attackMask == masks[squareIndex]
      requires Squares(attackMask) == SliderMaskSet(fBishop, squareIndex) && relevantBits == PopCount(attackMask)
      requires relevantBits == RelevantBits(fBishop)[squareIndex] && maxOccupancyIndex == MaxOccupancyIndex(relevantBits)
      requires Separates(attackMask, fBishop, squareIndex, relevantBits, Magics(fBishop)[squareIndex])
      requires SlidingReady(fBishop, masks, squareIndex)
      modifies Table(fBishop)
      ensures SlidingReady(fBishop, masks, squareIndex + 1)
    {
      var table, magic, indexBits := Table(fBishop), Magics(fBishop)[squareIndex], RelevantBits(fBishop)[squareIndex];
      ghost var slots := SlotsOf(masks, Magics(fBishop)[..], RelevantBits(fBishop));
      ghost var wants := WantsOf(fBishop, masks, RelevantBits(fBishop));
      ghost var counts := CountsOf(RelevantBits(fBishop));
      if fBishop {
        Pow2Monotone(indexBits, 9);
        PowersOfTwo();
      }
      FillRow(table, squareIndex, fBishop, attackMask, magic, relevantBits, maxOccupancyIndex, indexBits, slots, wants, counts);
      assert slots(squareIndex) == SlotOf(attackMask, magic, indexBits);
      assert wants(squareIndex) == WantOf(fBishop, squareIndex, attackMask, indexBits);
      assert counts(squareIndex) == MaxOccupancyIndex(indexBits);
      RowsStoredExtend(table, slots, wants, counts, squareIndex);
    }

    /** getPawnAttacks: the stored pawn attacks of a side on a square. */
    function GetPawnAttacks(sideToMove: int, squareIndex: int): Bitboard
      requires Valid() && 0 <= sideToMove < 2 && 0 <= squareIndex < 64
      reads pawnAttacks
    {
      pawnAttacks[sideToMove, squareIndex]
    }

    /** getKnightAttacks: the stored knight attacks of a square. */
    function GetKnightAttacks(squareIndex: int): Bitboard
      requires Valid() && 0 <= squareIndex < 64
      reads knightAttacks
    {
      knightAttacks[squareIndex]
    }

    /** getKingAttacks: the stored king attacks of a square. */
    function GetKingAttacks(squareIndex: int): Bitboard
      requires Valid() && 0 <= squareIndex < 64
      reads kingAttacks
    {
      kingAttacks[squareIndex]
    }

    /** getBishopAttacks: the bishop table entry at the square's magic slot. */
    function GetBishopAttacks(squareIndex: int, occupancy: Bitboard): Bitboard
      requires Valid() && 0 <= squareIndex < 64
      reads bishopMasks, bishopMagics, bishopAttacks
    {
      PowersOfTwo();
      Pow2Monotone(bishopRelevantBits[squareIndex], 9);
      SlidingEntry(bishopAttacks, squareIndex, occupancy, bishopMasks[squareIndex], bishopMagics[squareIndex], bishopRelevantBits[squareIndex])
    }

    /** getRookAttacks: the rook table entry at the square's magic slot. */
    function GetRookAttacks(squareIndex: int, occupancy: Bitboard): Bitboard
      requires Valid() && 0 <= squareIndex < 64
      reads rookMasks, rookMagics, rookAttacks
    {
      PowersOfTwo();
      Pow2Monotone(rookRelevantBits[squareIndex], 12);
      SlidingEntry(rookAttacks, squareIndex, occupancy, rookMasks[squareIndex], rookMagics[squareIndex], rookRelevantBits[squareIndex])
    }

    /** getQueenAttacks: the union of the two slider lookups. */
    function GetQueenAttacks(squareIndex: int, occupancy: Bitboard): Bitboard
      requires Valid() && 0 <= squareIndex < 64
      reads bishopMasks, bishopMagics, bishopAttacks, rookMasks, rookMagics, rookAttacks
    {
      GetBishopAttacks(squareIndex, occupancy) | GetRookAttacks(squareIndex, occupancy)
    }

    /** In a ready table a square's stored mask is its relevant mask, and the const.h width is its size. */
    lemma ReadyMask(isBishop: bool, squareIndex: int)
      requires Ready() && 0 <= squareIndex < 64
      ensures Masks(isBishop)[squareIndex] == SliderMask(isBishop, squareIndex)
      ensures RelevantBits(isBishop)[squareIndex] == PopCount(Masks(isBishop)[squareIndex])
    {
      var mask := Masks(isBishop)[squareIndex];
      ReadyParts();
      assert Squares(Masks(isBishop)[..][squareIndex]) == MaskSets(isBishop)(squareIndex);
      Extensionality(mask, SliderMask(isBishop, squareIndex));
      assert RelevantBits(isBishop)[squareIndex] == MaskWidth(isBishop, squareIndex);
    }

    /** In a ready table every slider row stores each variation of its stored mask at its magic slot. */
    lemma ReadyStored(isBishop: bool, squareIndex: int)
      requires Ready() && 0 <= squareIndex < 64
      ensures Stored(Table(isBishop), squareIndex,
                     SlotOf(Masks(isBishop)[squareIndex], Magics(isBishop)[squareIndex], RelevantBits(isBishop)[squareIndex]),
                     WantOf(isBishop, squareIndex, Masks(isBishop)[squareIndex], RelevantBits(isBishop)[squareIndex]),
                     MaxOccupancyIndex(RelevantBits(isBishop)[squareIndex]))
    {
      ReadyMask(isBishop, squareIndex);
      ReadyParts();
      ghost var canon := RelevantMasks(isBishop);
      var slots := SlotsOf(canon, Magics(isBishop)[..], RelevantBits(isBishop));
      var wants := WantsOf(isBishop, canon, RelevantBits(isBishop));
      var counts := CountsOf(RelevantBits(isBishop));
      assert Stored(Table(isBishop), squareIndex, slots(squareIndex), wants(squareIndex), counts(squareIndex));
      assert canon[squareIndex] == Masks(isBishop)[squareIndex];
    }

    /** In a ready table every slider row is ready for lookups with its stored mask, magic and width. */
    lemma ReadyRow(isBishop: bool, squareIndex: int)
      requires Ready() && 0 <= squareIndex < 64
      ensures RowReady(isBishop, squareIndex, Table(isBishop), Masks(isBishop)[squareIndex], Magics(isBishop)[squareIndex], RelevantBits(isBishop)[squareIndex])
    {
      ReadyMask(isBishop, squareIndex);
      ReadyStored(isBishop, squareIndex);
      PowersOfTwo();
      Pow2Monotone(RelevantBits(isBishop)[squareIndex], if isBishop then 9 else 12);
    }

    /**
     * The lookup theorem for bishops: once the constructor has filled the
     * tables, the entry a bishop lookup reads holds the bishop's ray-cast
     * attacks for the whole occupancy.
     */
    lemma BishopLookup(squareIndex: int, occupancy: Bitboard)
      requires Ready() && 0 <= squareIndex < 64
      ensures Squares(GetBishopAttacks(squareIndex, occupancy)) == BishopAttackSet(squareIndex, Squares(occupancy))
    {
      ReadyRow(true, squareIndex);
      SliderLookup(true, squareIndex, occupancy, bishopAttacks, bishopMasks[squareIndex], bishopMagics[squareIndex], bishopRelevantBits[squareIndex]);
    }

    /** The lookup theorem for rooks. */
    lemma RookLookup(squareIndex: int, occupancy: Bitboard)
      requires Ready() && 0 <= squareIndex < 64
      ensures Squares(GetRookAttacks(squareIndex, occupancy)) == RookAttackSet(squareIndex, Squares(occupancy))
    {
      ReadyRow(false, squareIndex);
      SliderLookup(false, squareIndex, occupancy, rookAttacks, rookMasks[squareIndex], rookMagics[squareIndex], rookRelevantBits[squareIndex]);
    }

    /** The union of a ready bishop lookup and a ready rook lookup holds both ray-casts. */
    lemma QueenUnion(squareIndex: int, occupancy: Bitboard, bishop: Bitboard, rook: Bitboard)
      requires Ready() && 0 <= squareIndex < 64
      requires bishop == GetBishopAttacks(squareIndex, occupancy) && rook == GetRookAttacks(squareIndex, occupancy)
      ensures Squares(bishop | rook) == BishopAttackSet(squareIndex, Squares(occupancy)) + RookAttackSet(squareIndex, Squares(occupancy))
    {
      BishopLookup(squareIndex, occupancy);
      RookLookup(squareIndex, occupancy);
      SquaresOr(bishop, rook);
    }

    /** A ready queen lookup is the union of both ray-casts. */
    lemma QueenLookup(squareIndex: int, occupancy: Bitboard)
      requires Ready() && 0 <= squareIndex < 64
      ensures Squares(GetQueenAttacks(squareIndex, occupancy)) ==
              BishopAttackSet(squareIndex, Squares(occupancy)) + RookAttackSet(squareIndex, Squares(occupancy))
    {
      QueenUnion(squareIndex, occupancy, GetBishopAttacks(squareIndex, occupancy), GetRookAttacks(squareIndex, occupancy));
    }

    /** A ready table answers the leaper queries with the leaper attack sets. */
    lemma LeaperLookup(sideToMove: int, squareIndex: int)
      requires Ready() && 0 <= sideToMove < 2 && 0 <= squareIndex < 64
      ensures Squares(GetPawnAttacks(sideToMove, squareIndex)) == PawnAttackSet(sideToMove, squareIndex)
      ensures Squares(GetKnightAttacks(squareIndex)) == KnightAttackSet(squareIndex)
      ensures Squares(GetKingAttacks(squareIndex)) == KingAttackSet(squareIndex)
    {
      ReadyLeapers();
      assert Squares(knightAttacks[..][squareIndex]) == KnightSets()(squareIndex);
      assert Squares(kingAttacks[..][squareIndex]) == KingSets()(squareIndex);
    }

    /** The slider lookups see only the occupied squares on the square's relevant mask. */
    lemma LookupMaskedOnly(squareIndex: int, occupancy: Bitboard, other: Bitboard)
      requires Ready() && 0 <= squareIndex < 64
      ensures Squares(occupancy) * BishopMaskSet(squareIndex) == Squares(other) * BishopMaskSet(squareIndex) ==>
              GetBishopAttacks(squareIndex, occupancy) == GetBishopAttacks(squareIndex, other)
      ensures Squares(occupancy) * RookMaskSet(squareIndex) == Squares(other) * RookMaskSet(squareIndex) ==>
              GetRookAttacks(squareIndex, occupancy) == GetRookAttacks(squareIndex, other)
    {
      ReadyRow(true, squareIndex);
      ReadyRow(false, squareIndex);
      if Squares(occupancy) * BishopMaskSet(squareIndex) == Squares(other) * BishopMaskSet(squareIndex) {
        SliderMaskedOnly(bishopAttacks, squareIndex, occupancy, other, bishopMasks[squareIndex], bishopMagics[squareIndex], bishopRelevantBits[squareIndex]);
      }
      if Squares(occupancy) * RookMaskSet(squareIndex) == Squares(other) * RookMaskSet(squareIndex) {
        SliderMaskedOnly(rookAttacks, squareIndex, occupancy, other, rookMasks[squareIndex], rookMagics[squareIndex], rookRelevantBits[squareIndex]);
      }
    }
  }
}
