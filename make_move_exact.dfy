/**
 * When makeMove's incremental hash is right.
 *
 * makeMove's popBit clears a bit only when it is set, while the hash key
 * is XORed with the square's key either way, so the incremental hash tracks
 * the position only while every pop finds its piece and every set finds
 * the square empty (the `exact` flag of the steps in MakeMoves). This
 * module names the positions on which that holds for every move the
 * generator emits: occupancies derived from the piece boards, no square
 * held by two boards, each castling right backed by the king and the rook
 * on their home squares, and an en-passant square that is empty with the
 * enemy pawn that passed it just behind.
 */
module MakeMoveExactness {
  import opened Wrappers
  import opened Bitboards
  import opened Geometry
  import opened MoveEncoding
  import opened AttackTables
  import opened BoardStates
  import opened Zobrist
  import opened MakeMoves
  import opened MoveGeneration
  import opened GeneratorProperties

  // ---------------------------------------------------------------------
  // Consistent positions
  // ---------------------------------------------------------------------

  /** No square is held by two of the twelve piece boards. */
  ghost predicate Disjoint(st: BoardState)
    requires WellFormed(st)
  {
    forall p, q :: 0 <= p < q < 12 ==> Squares(st.bitboards[p]) !! Squares(st.bitboards[q])
  }

  /** The king and the rook a castling right needs stand on their home squares. */
  predicate RightBacked(st: BoardState, right: bv4, king: int, kingHome: int, rook: int, rookHome: int)
    requires WellFormed(st) && 0 <= king < 12 && 0 <= rook < 12
  {
    st.canCastle & right != 0 ==> kingHome in Squares(st.bitboards[king]) && rookHome in Squares(st.bitboards[rook])
  }

  /** An en-passant square is empty, and the enemy pawn that passed it stands just behind it. */
  predicate EnPassantBacked(st: BoardState)
    requires WellFormed(st)
  {
    var ep := st.enPassantSquareIndex;
    ep != NO_SQUARE_INDEX ==>
      ep !in Squares(st.occupancies[BOTH]) && 0 <= Behind(st.sideToMove, ep) < 64 &&
      Behind(st.sideToMove, ep) in Squares(st.bitboards[PieceOf(Opponent(st.sideToMove), PAWN)])
  }

  /** A position as parseFEN builds it from a legal FEN string; that makeMove preserves it is assumed here, not shown. */
  ghost predicate Consistent(st: BoardState)
  {
    WellFormed(st) && st.occupancies == BoardStates.Occupancies(st.bitboards) && Disjoint(st) &&
    RightBacked(st, CASTLE_K, WHITE_KING, E1, WHITE_ROOK, H1) &&
    RightBacked(st, CASTLE_Q, WHITE_KING, E1, WHITE_ROOK, A1) &&
    RightBacked(st, CASTLE_k, BLACK_KING, E8, BLACK_ROOK, H8) &&
    RightBacked(st, CASTLE_q, BLACK_KING, E8, BLACK_ROOK, A8) &&
    EnPassantBacked(st)
  }

  /** A square on any piece board is in its side's occupancy and in the occupancy of both sides. */
  lemma BoardInOccupancy(st: BoardState, q: int, t: int)
    requires WellFormed(st) && st.occupancies == BoardStates.Occupancies(st.bitboards)
    requires 0 <= q < 12 && t in Squares(st.bitboards[q])
    ensures t in Squares(st.occupancies[SideOf(q)]) && t in Squares(st.occupancies[BOTH])
  {
    assert PieceOf(SideOf(q), KindOf(q)) == q;
    SideOccupancy(st.bitboards, SideOf(q), t);
    SquaresOrOf(st.occupancies[WHITE], st.occupancies[BLACK]);
  }

  /** A square in a side's occupancy is on no board of the other side. */
  lemma OccupiedByOneSide(st: BoardState, side: int, q: int, t: int)
    requires WellFormed(st) && st.occupancies == BoardStates.Occupancies(st.bitboards) && Disjoint(st)
    requires (side == WHITE || side == BLACK) && t in Squares(st.occupancies[side])
    requires 0 <= q < 12 && SideOf(q) != side
    ensures t !in Squares(st.bitboards[q])
  {
    SideOccupancy(st.bitboards, side, t);
    var kind :| 0 <= kind < 6 && t in Squares(st.bitboards[PieceOf(side, kind)]);
    var p := PieceOf(side, kind);
    assert p != q;
    if p < q {
      assert Squares(st.bitboards[p]) !! Squares(st.bitboards[q]);
    } else {
      assert Squares(st.bitboards[q]) !! Squares(st.bitboards[p]);
    }
  }

  // ---------------------------------------------------------------------
  // The steps, one at a time
  // ---------------------------------------------------------------------

  /** A pop or set changes board p and the hash key, and nothing else. */
  lemma ToggleFrame(keys: ZobristKeys, a: Applied, p: int, s: int, put: bool)
    requires KeysShaped(keys) && WellFormed(a.st) && 0 <= p < 12 && 0 <= s < 64
    ensures var r := Toggle(keys, a, p, s, put);
      r.st == a.st.(bitboards := r.st.bitboards, hashKey := r.st.hashKey) &&
      forall q :: 0 <= q < 12 && q != p ==> r.st.bitboards[q] == a.st.bitboards[q]
  {
  }

  /** The mover's piece leaves a square it stands on for one its board does not hold: both bits change. */
  lemma MovePieceExact(keys: ZobristKeys, a: Applied, f: MoveFields)
    requires KeysShaped(keys) && WellFormed(a.st) && Playable(a.st, f) && a.exact
    requires f.start in Squares(a.st.bitboards[f.piece]) && f.target !in Squares(a.st.bitboards[f.piece])
    ensures var r := MovePiece(keys, a, f);
      r.exact && r.st == a.st.(bitboards := r.st.bitboards, hashKey := r.st.hashKey) &&
      f.target in Squares(r.st.bitboards[f.piece]) &&
      forall q :: 0 <= q < 12 && q != f.piece ==> r.st.bitboards[q] == a.st.bitboards[q]
  {
    var a1 := Toggle(keys, a, f.piece, f.start, false);
    ToggleFrame(keys, a, f.piece, f.start, false);
    ToggleFrame(keys, a1, f.piece, f.target, true);
  }

  /**
   * The capture loop touches only the boards it searches, and takes at
   * most the target square off them.
   */
  lemma {:induction false} CaptureFrame(keys: ZobristKeys, a: Applied, target: int, from: int, last: int)
    requires KeysShaped(keys) && WellFormed(a.st) && 0 <= target < 64 && 0 <= from && last < 12
    ensures var r := Capture(keys, a, target, from, last);
      r.st.sideToMove == a.st.sideToMove &&
      forall q :: 0 <= q < 12 ==>
        (q < from || last < q ==> r.st.bitboards[q] == a.st.bitboards[q]) &&
        Squares(a.st.bitboards[q]) - {target} <= Squares(r.st.bitboards[q])
    decreases last + 1 - from
  {
    if from <= last {
      if Bit(a.st.bitboards[from], target) {
        ToggleFrame(keys, a, from, target, false);
      } else {
        CaptureFrame(keys, a, target, from + 1, last);
      }
    }
  }

  /** The promotion pops the pawn the move put on the target and sets a piece the square was free of. */
  lemma PromoteExact(keys: ZobristKeys, a: Applied, target: int, promoted: int)
    requires KeysShaped(keys) && WellFormed(a.st) && 0 <= target < 64 && 0 <= promoted < 12 && a.exact
    requires promoted != PieceOf(a.st.sideToMove, PAWN)
    requires target in Squares(a.st.bitboards[PieceOf(a.st.sideToMove, PAWN)]) && target !in Squares(a.st.bitboards[promoted])
    ensures Promote(keys, a, target, promoted).exact
  {
    var pawn := PieceOf(a.st.sideToMove, PAWN);
    ToggleFrame(keys, a, pawn, target, false);
  }

  /** The en-passant capture pops an enemy pawn that stands behind the target. */
  lemma EnPassantCaptureExact(keys: ZobristKeys, a: Applied, target: int)
    requires KeysShaped(keys) && WellFormed(a.st) && 0 <= Behind(a.st.sideToMove, target) < 64 && a.exact
    requires Behind(a.st.sideToMove, target) in Squares(a.st.bitboards[PieceOf(Opponent(a.st.sideToMove), PAWN)])
    ensures EnPassantCapture(keys, a, target).exact
  {
  }

  /** The rook jump of a castle pops a rook on its home square and sets it on a free square. */
  lemma RookJumpExact(keys: ZobristKeys, a: Applied, rook: int, from: int, to: int)
    requires KeysShaped(keys) && WellFormed(a.st) && 0 <= rook < 12 && 0 <= from < 64 && 0 <= to < 64 && a.exact
    requires from in Squares(a.st.bitboards[rook]) && to !in Squares(a.st.bitboards[rook])
    ensures Toggle(keys, Toggle(keys, a, rook, from, false), rook, to, true).exact
  {
  }

  // ---------------------------------------------------------------------
  // Moves whose steps all change their bits
  // ---------------------------------------------------------------------

  /**
   * A move other than a castle whose steps all change their bits: the
   * piece of the mover stands on the start and its board does not hold the
   * target; a promotion is of the mover's pawn to another piece of its side
   * whose board does not hold the target; en passant promotes nothing and
   * finds the enemy pawn behind the target.
   */
  ghost predicate StepsFit(st: BoardState, f: MoveFields)
    requires WellFormed(st)
  {
    Playable(st, f) && !f.castling && SideOf(f.piece) == st.sideToMove &&
    f.start in Squares(st.bitboards[f.piece]) && f.target !in Squares(st.bitboards[f.piece]) &&
    (f.promoted != 0 ==>
      f.piece == PieceOf(st.sideToMove, PAWN) && f.promoted != f.piece && SideOf(f.promoted) == st.sideToMove &&
      f.target !in Squares(st.bitboards[f.promoted])) &&
    (f.enPassant ==>
      f.promoted == 0 && Behind(st.sideToMove, f.target) in Squares(st.bitboards[PieceOf(Opponent(st.sideToMove), PAWN)]))
  }

  /** The piece steps of a fitting move stay exact. */
  lemma PiecesMovedExact(keys: ZobristKeys, st: BoardState, f: MoveFields)
    requires KeysShaped(keys) && WellFormed(st) && StepsFit(st, f)
    ensures PiecesMoved(keys, st, f).exact
  {
    var side := st.sideToMove;
    var a1 := MovePiece(keys, Applied(st, true), f);
    MovePieceExact(keys, Applied(st, true), f);
    var from, last := FirstVictim(side), LastVictim(side);
    var a2 := if f.capture then Capture(keys, a1, f.target, from, last) else a1;
    if f.capture {
      CaptureFrame(keys, a1, f.target, from, last);
    }
    assert a2.exact && a2.st.sideToMove == side;
    if f.promoted != 0 {
      assert f.piece < from || last < f.piece;
      assert f.promoted < from || last < f.promoted;
      assert a2.st.bitboards[f.piece] == a1.st.bitboards[f.piece];
      PromoteExact(keys, a2, f.target, f.promoted);
    } else if f.enPassant {
      var enemy := PieceOf(Opponent(side), PAWN);
      assert Behind(side, f.target) in Squares(a1.st.bitboards[enemy]);
      EnPassantCaptureExact(keys, a2, f.target);
    }
  }

  /** A fitting move stays exact through makeMove: the en-passant square and the rights change no bit. */
  lemma StepsExact(keys: ZobristKeys, castleState: seq<bv4>, st: BoardState, f: MoveFields)
    requires KeysShaped(keys) && |castleState| == 64 && WellFormed(st) && StepsFit(st, f)
    ensures Played(keys, castleState, st, f).exact
  {
    PiecesMovedExact(keys, st, f);
  }

  /** The rook of a castle onto `target`, its home square and the square it jumps to. */
  function RookJump(target: int): (int, int, int)
  {
    if target == G1 then (WHITE_ROOK, H1, F1)
    else if target == C1 then (WHITE_ROOK, A1, D1)
    else if target == G8 then (BLACK_ROOK, H8, F8)
    else (BLACK_ROOK, A8, D8)
  }

  /**
   * A castle whose steps all change their bits: the king stands on the
   * start and not on the target, and the rook stands on its home square
   * and not on the square it jumps to.
   */
  ghost predicate CastleFits(st: BoardState, f: MoveFields)
    requires WellFormed(st)
  {
    Playable(st, f) && f.castling && !f.capture && f.promoted == 0 && !f.enPassant && !f.doublePush &&
    f.start in Squares(st.bitboards[f.piece]) && f.target !in Squares(st.bitboards[f.piece]) &&
    f.target in {G1, C1, G8, C8} &&
    var (rook, home, to) := RookJump(f.target);
    rook != f.piece && home in Squares(st.bitboards[rook]) && to !in Squares(st.bitboards[rook])
  }

  /** A fitting castle stays exact: the king leaves its square for an empty one, then the rook does. */
  lemma CastleExact(keys: ZobristKeys, castleState: seq<bv4>, st: BoardState, f: MoveFields)
    requires KeysShaped(keys) && |castleState| == 64 && WellFormed(st) && CastleFits(st, f)
    ensures Played(keys, castleState, st, f).exact
  {
    var (rook, home, to) := RookJump(f.target);
    var a4 := PiecesMoved(keys, st, f);
    MovePieceExact(keys, Applied(st, true), f);
    var a5 := EnPassantUpdate(keys, a4, f.doublePush, f.target);
    assert a5.st.bitboards == a4.st.bitboards;
    RookJumpExact(keys, a5, rook, home, to);
  }

  // ---------------------------------------------------------------------
  // The moves the generator emits
  // ---------------------------------------------------------------------

  /** Every square of a piece board is in its side's occupancy and in the occupancy of both sides. */
  lemma OccupancyCovers(st: BoardState, t: int)
    requires WellFormed(st) && st.occupancies == BoardStates.Occupancies(st.bitboards)
    ensures forall q :: 0 <= q < 12 && t in Squares(st.bitboards[q]) ==>
      t in Squares(st.occupancies[SideOf(q)]) && t in Squares(st.occupancies[BOTH])
  {
    forall q | 0 <= q < 12 && t in Squares(st.bitboards[q])
      ensures t in Squares(st.occupancies[SideOf(q)]) && t in Squares(st.occupancies[BOTH])
    {
      BoardInOccupancy(st, q, t);
    }
  }

  /** A sound knight .. king move fits on a consistent position. */
  lemma PieceMoveFits(st: BoardState, m: Move)
    requires Consistent(st) && MoveSound(st, m) && !IsCastling(m) && KindOf(GetPiece(m)) != PAWN
    ensures StepsFit(st, Fields(m))
  {
    OccupancyCovers(st, GetTargetSquareIndex(m));
  }

  /** A square that is empty, or held by the other side, is on no board of `side`. */
  lemma OwnBoardsFree(st: BoardState, side: int, t: int)
    requires WellFormed(st) && st.occupancies == BoardStates.Occupancies(st.bitboards) && Disjoint(st)
    requires (side == WHITE || side == BLACK)
    requires t !in Squares(st.occupancies[BOTH]) || t in Squares(st.occupancies[Opponent(side)])
    ensures forall q :: 0 <= q < 12 && SideOf(q) == side ==> t !in Squares(st.bitboards[q])
  {
    if t in Squares(st.occupancies[Opponent(side)]) {
      forall q | 0 <= q < 12 && SideOf(q) == side
        ensures t !in Squares(st.bitboards[q])
      {
        OccupiedByOneSide(st, Opponent(side), q, t);
      }
    } else {
      OccupancyCovers(st, t);
    }
  }

  /** The conditions of StepsFit, with the target free of every board of the mover. */
  lemma StepsFitIntro(st: BoardState, f: MoveFields)
    requires WellFormed(st) && Playable(st, f) && !f.castling && SideOf(f.piece) == st.sideToMove
    requires f.start in Squares(st.bitboards[f.piece])
    requires forall q :: 0 <= q < 12 && SideOf(q) == st.sideToMove ==> f.target !in Squares(st.bitboards[q])
    requires f.promoted != 0 ==>
      f.piece == PieceOf(st.sideToMove, PAWN) && f.promoted != f.piece && SideOf(f.promoted) == st.sideToMove
    requires f.enPassant ==>
      f.promoted == 0 && Behind(st.sideToMove, f.target) in Squares(st.bitboards[PieceOf(Opponent(st.sideToMove), PAWN)])
    ensures StepsFit(st, f)
  {
  }

  /** A sound pawn move fits on a consistent position. */
  lemma PawnMoveFits(st: BoardState, m: Move)
    requires Consistent(st) && MoveSound(st, m) && !IsCastling(m) && KindOf(GetPiece(m)) == PAWN
    ensures StepsFit(st, Fields(m))
  {
    var f, side := Fields(m), st.sideToMove;
    assert f.piece == PieceOf(side, PAWN);
    PawnTargetOpen(st, m);
    OwnBoardsFree(st, side, f.target);
    PawnMovePlayable(st, m);
    assert f.promoted != 0 ==> SideOf(f.promoted) == side;
    StepsFitIntro(st, f);
  }

  /** A sound pawn move goes to an empty square or to one the other side holds. */
  lemma PawnTargetOpen(st: BoardState, m: Move)
    requires WellFormed(st) && EnPassantBacked(st) && PawnMoveSound(st, m)
    ensures var t := GetTargetSquareIndex(m);
      t !in Squares(st.occupancies[BOTH]) || t in Squares(st.occupancies[Opponent(st.sideToMove)])
  {
  }

  /** A sound pawn move indexes the boards and, as en passant or a double push, has its square behind on the board. */
  lemma PawnMovePlayable(st: BoardState, m: Move)
    requires WellFormed(st) && EnPassantBacked(st) && MoveSound(st, m) && !IsCastling(m) && KindOf(GetPiece(m)) == PAWN
    ensures Playable(st, Fields(m))
  {
  }

  /** A sound castle fits on a consistent position. */
  lemma CastleMoveFits(st: BoardState, m: Move)
    requires Consistent(st) && MoveSound(st, m) && IsCastling(m)
    ensures CastleFits(st, Fields(m))
  {
    var f := Fields(m);
    var (rook, home, to) := RookJump(f.target);
    OccupancyCovers(st, f.target);
    OccupancyCovers(st, to);
  }

  /**
   * On a consistent position every move generateMoves emits satisfies
   * what makeMove demands of it, and every pop and set makeMove makes for
   * it changes its bit.
   */
  lemma GeneratedExact(keys: ZobristKeys, castleState: seq<bv4>, st: BoardState, m: Move)
    requires KeysShaped(keys) && |castleState| == 64 && Consistent(st) && m in Generated(st)
    ensures Playable(st, Fields(m)) && Played(keys, castleState, st, Fields(m)).exact
  {
    GeneratedSound(st);
    if IsCastling(m) {
      CastleMoveFits(st, m);
      CastleExact(keys, castleState, st, Fields(m));
    } else {
      if KindOf(GetPiece(m)) == PAWN {
        PawnMoveFits(st, m);
      } else {
        PieceMoveFits(st, m);
      }
      StepsExact(keys, castleState, st, Fields(m));
    }
  }

  /**
   * makeMove's incremental hash on a consistent position: for every move
   * generateMoves emits that makeMove accepts, the hash key changes exactly
   * as a recomputation of the position's hash changes.
   */
  lemma GeneratedHashTracks(keys: ZobristKeys, castleState: seq<bv4>, attacks: AttackTable, st: BoardState, m: Move)
    requires attacks.Valid() && KeysShaped(keys) && |castleState| == 64 && Consistent(st) && m in Generated(st)
    ensures Playable(st, Fields(m))
    ensures var r := MakeMove(keys, castleState, attacks, st, Fields(m));
      r.Success? && r.value.made == 1 ==>
        Xor(r.value.after.st.hashKey, st.hashKey) == Xor(ZobristHash(keys, r.value.after.st), ZobristHash(keys, st))
  {
    GeneratedExact(keys, castleState, st, m);
    var r := MakeMove(keys, castleState, attacks, st, Fields(m));
    if r.Success? && r.value.made == 1 {
      MakeMoveAccepts(keys, castleState, attacks, st, Fields(m));
    }
  }
}
