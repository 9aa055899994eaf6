/**
 * Attack masks of the leaping pieces (magic_bitboards.cpp, maskPawnAttacks,
 * maskKnightAttacks, maskKingAttacks). Each shifts the one-square bitboard of
 * the piece by the index offset of a target, guarded by a file mask (or, for
 * the king's vertical steps, by the shifted board being non-empty) so that no
 * target wraps around to the other side of the board.
 *
 * Every guarded `attacks |= piece >> n` (or `<< n`) statement of the engine is
 * one call of OrShiftedRight (or OrShiftedLeft) here, with the guard computed
 * by the caller exactly as the engine writes it.
 */
module LeaperMasks {
  import opened BitVectors
  import opened Bitboards
  import opened Geometry

  /** File masks of const.h (file a is bit 0 of every rank byte). */
  const NOT_A_FILE: Bitboard := 0xfefe_fefe_fefe_fefe
  const NOT_H_FILE: Bitboard := 0x7f7f_7f7f_7f7f_7f7f
  const NOT_AB_FILE: Bitboard := 0xfcfc_fcfc_fcfc_fcfc
  const NOT_HG_FILE: Bitboard := 0x3f3f_3f3f_3f3f_3f3f

  /** A one-square bitboard meets a file mask exactly when its square is on one of the mask's files. */
  lemma FileGuards(t: bv6)
    ensures (Single(t) & NOT_A_FILE != 0) == (File(t as int) != 0)
    ensures (Single(t) & NOT_H_FILE != 0) == (File(t as int) != 7)
    ensures (Single(t) & NOT_AB_FILE != 0) == (File(t as int) >= 2)
    ensures (Single(t) & NOT_HG_FILE != 0) == (File(t as int) <= 5)
  {
    SingleMeetsBv(t, NOT_A_FILE);
    SingleMeetsBv(t, NOT_H_FILE);
    SingleMeetsBv(t, NOT_AB_FILE);
    SingleMeetsBv(t, NOT_HG_FILE);
    FileMasksBv(t);
    FileOfBv(t);
  }

  /** Shifting a one-square bitboard by a whole rank empties it exactly when the square is on the edge rank. */
  lemma RankGuards(t: bv6)
    ensures (Single(t) >> 8 != 0) == (Rank(t as int) >= 1)
    ensures (Single(t) << 8 != 0) == (Rank(t as int) <= 6)
  {
    BvRange(t);
    RankShiftBv(t);
    LessBv(t, 8);
    LessBv(t, 56);
  }

  /**
   * Moving dr ranks and df files is adding 8 * dr + df to the index, as long
   * as the file stays on the board; the rank stays on the board exactly when
   * the index does.
   */
  lemma ShiftedStep(s: int, dr: int, df: int)
    requires 0 <= s < 64
    ensures Step(s, dr, df) ==
      if 0 <= File(s) + df < 8 && 0 <= s + 8 * dr + df < 64 then {s + 8 * dr + df} else {}
  {
  }

  /** A right shift by n = -(8 * dr + df) lands on Step(t, dr, df) when the file stays on the board. */
  lemma ShrStep(t: bv6, n: bv6, dr: int, df: int)
    requires n as int == -(8 * dr + df) && 0 <= File(t as int) + df < 8
    ensures Squares(Single(t) >> n) == Step(t as int, dr, df)
  {
    ShrSquares(t, n);
    BvRange(t);
    ShiftedStep(t as int, dr, df);
  }

  /** A left shift by n = 8 * dr + df lands on Step(t, dr, df) when the file stays on the board. */
  lemma ShlStep(t: bv6, n: bv6, dr: int, df: int)
    requires n as int == 8 * dr + df && 0 <= File(t as int) + df < 8
    ensures Squares(Single(t) << n) == Step(t as int, dr, df)
  {
    ShlSquares(t, n);
    BvRange(t);
    ShiftedStep(t as int, dr, df);
  }

  /**
   * `if (guard) attacks |= piece >> n;` where `piece` holds square s alone:
   * adds the square dr ranks and df files away. The guard must rule out a
   * wrap-around and may only fail when that square is off the board.
   */
  method OrShiftedRight(attacks: Bitboard, piece: Bitboard, guard: bool, n: bv6,
                        ghost t: bv6, ghost s: int, ghost dr: int, ghost df: int)
    returns (r: Bitboard)
    requires piece == Single(t) && s == t as int && n as int == -(8 * dr + df)
    requires guard ==> 0 <= File(s) + df < 8
    requires !guard ==> !OnBoard(Rank(s) + dr, File(s) + df)
    ensures Squares(r) == Squares(attacks) + Step(s, dr, df)
  {
    if guard {
      ShrStep(t, n, dr, df);
      SquaresOr(attacks, piece >> n);
      r := attacks | (piece >> n);
    } else {
      r := attacks;
    }
  }

  /** `if (guard) attacks |= piece << n;`, the mirror image of OrShiftedRight. */
  method OrShiftedLeft(attacks: Bitboard, piece: Bitboard, guard: bool, n: bv6,
                       ghost t: bv6, ghost s: int, ghost dr: int, ghost df: int)
    returns (r: Bitboard)
    requires piece == Single(t) && s == t as int && n as int == 8 * dr + df
    requires guard ==> 0 <= File(s) + df < 8
    requires !guard ==> !OnBoard(Rank(s) + dr, File(s) + df)
    ensures Squares(r) == Squares(attacks) + Step(s, dr, df)
  {
    if guard {
      ShlStep(t, n, dr, df);
      SquaresOr(attacks, piece << n);
      r := attacks | (piece << n);
    } else {
      r := attacks;
    }
  }

  /** Starting from the empty board, the first square set added is the whole set so far. */
  lemma EmptyUnion(a: set<int>, b: set<int>)
    requires a == {}
    ensures a + b == b
  {
  }

  /**
   * maskPawnAttacks: the squares a pawn of `sideToMove` on `squareIndex`
   * attacks; a side other than white or black attacks nothing.
   */
  method MaskPawnAttacks(squareIndex: int, sideToMove: int) returns (attacksBitboard: Bitboard)
    requires 0 <= squareIndex < 64
    ensures Squares(attacksBitboard) == PawnAttackSet(sideToMove, squareIndex)
  {
    var pawnsBitboard := SetBit(0, squareIndex);
    attacksBitboard := 0;

    ghost var s := squareIndex;
    ghost var t := squareIndex as bv6;
    IntToBv(squareIndex);
    assert pawnsBitboard == Single(t);
    FileGuards(t);
    SquaresZero();

    if sideToMove == WHITE {
      attacksBitboard := OrShiftedRight(attacksBitboard, pawnsBitboard, pawnsBitboard & NOT_H_FILE != 0, 7, t, s, -1, 1);
      attacksBitboard := OrShiftedRight(attacksBitboard, pawnsBitboard, pawnsBitboard & NOT_A_FILE != 0, 9, t, s, -1, -1);
      EmptyUnion(Squares(0), Step(s, -1, 1));
    } else if sideToMove == BLACK {
      attacksBitboard := OrShiftedLeft(attacksBitboard, pawnsBitboard, pawnsBitboard & NOT_H_FILE != 0, 9, t, s, 1, 1);
      attacksBitboard := OrShiftedLeft(attacksBitboard, pawnsBitboard, pawnsBitboard & NOT_A_FILE != 0, 7, t, s, 1, -1);
      EmptyUnion(Squares(0), Step(s, 1, 1));
    }
  }

  /** maskKnightAttacks: the squares a knight on `squareIndex` attacks. */
  method MaskKnightAttacks(squareIndex: int) returns (attacksBitboard: Bitboard)
    requires 0 <= squareIndex < 64
    ensures Squares(attacksBitboard) == KnightAttackSet(squareIndex)
  {
    var knightsBitboard := SetBit(0, squareIndex);
    attacksBitboard := 0;

    ghost var s := squareIndex;
    ghost var t := squareIndex as bv6;
    IntToBv(squareIndex);
    assert knightsBitboard == Single(t);
    FileGuards(t);
    SquaresZero();

    attacksBitboard := OrShiftedRight(attacksBitboard, knightsBitboard, knightsBitboard & NOT_H_FILE != 0, 15, t, s, -2, 1);
    attacksBitboard := OrShiftedRight(attacksBitboard, knightsBitboard, knightsBitboard & NOT_A_FILE != 0, 17, t, s, -2, -1);
    attacksBitboard := OrShiftedRight(attacksBitboard, knightsBitboard, knightsBitboard & NOT_HG_FILE != 0, 6, t, s, -1, 2);
    attacksBitboard := OrShiftedRight(attacksBitboard, knightsBitboard, knightsBitboard & NOT_AB_FILE != 0, 10, t, s, -1, -2);
    attacksBitboard := OrShiftedLeft(attacksBitboard, knightsBitboard, knightsBitboard & NOT_A_FILE != 0, 15, t, s, 2, -1);
    attacksBitboard := OrShiftedLeft(attacksBitboard, knightsBitboard, knightsBitboard & NOT_H_FILE != 0, 17, t, s, 2, 1);
    attacksBitboard := OrShiftedLeft(attacksBitboard, knightsBitboard, knightsBitboard & NOT_AB_FILE != 0, 6, t, s, 1, -2);
    attacksBitboard := OrShiftedLeft(attacksBitboard, knightsBitboard, knightsBitboard & NOT_HG_FILE != 0, 10, t, s, 1, 2);
    EmptyUnion(Squares(0), Step(s, -2, 1));
  }

  /**
   * maskKingAttacks: the squares a king on `squareIndex` attacks. The
   * vertical steps are guarded by the shifted board being non-empty; under
   * each file guard the engine adds two targets.
   */
  method MaskKingAttacks(squareIndex: int) returns (attacksBitboard: Bitboard)
    requires 0 <= squareIndex < 64
    ensures Squares(attacksBitboard) == KingAttackSet(squareIndex)
  {
    var kingBitboard := SetBit(0, squareIndex);
    attacksBitboard := 0;

    ghost var s := squareIndex;
    ghost var t := squareIndex as bv6;
    IntToBv(squareIndex);
    assert kingBitboard == Single(t);
    FileGuards(t);
    RankGuards(t);
    SquaresZero();

    attacksBitboard := OrShiftedRight(attacksBitboard, kingBitboard, kingBitboard >> 8 != 0, 8, t, s, -1, 0);
    attacksBitboard := OrShiftedRight(attacksBitboard, kingBitboard, kingBitboard & NOT_H_FILE != 0, 7, t, s, -1, 1);
    attacksBitboard := OrShiftedRight(attacksBitboard, kingBitboard, kingBitboard & NOT_A_FILE != 0, 9, t, s, -1, -1);
    attacksBitboard := OrShiftedRight(attacksBitboard, kingBitboard, kingBitboard & NOT_A_FILE != 0, 1, t, s, 0, -1);
    attacksBitboard := OrShiftedLeft(attacksBitboard, kingBitboard, kingBitboard << 8 != 0, 8, t, s, 1, 0);
    attacksBitboard := OrShiftedLeft(attacksBitboard, kingBitboard, kingBitboard & NOT_A_FILE != 0, 7, t, s, 1, -1);
    attacksBitboard := OrShiftedLeft(attacksBitboard, kingBitboard, kingBitboard & NOT_H_FILE != 0, 9, t, s, 1, 1);
    attacksBitboard := OrShiftedLeft(attacksBitboard, kingBitboard, kingBitboard & NOT_H_FILE != 0, 1, t, s, 0, 1);
    EmptyUnion(Squares(0), Step(s, -1, 0));
  }
}
