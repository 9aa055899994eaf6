/**
 * What generateMoves promises about the moves it emits, proved on the
 * definition Generated(st) the generator is proved equal to.
 *
 * Soundness: every move belongs to the side to move; a knight .. king move
 * goes from a square the piece stands on to a square it attacks that its
 * own side does not hold, and is flagged as a capture exactly when an
 * opponent piece stands there; promotions come only from the seventh rank
 * and every non-en-passant pawn move from there is one; double pushes go
 * two empty squares from the second rank; castles start on the king's
 * square with the right held, the path empty and the squares passed not
 * attacked.
 *
 * Completeness: every knight .. king move and castle allowed by the
 * position is emitted, and so is every free single or double push, every
 * capture of an opponent piece a pawn attacks and every en-passant capture,
 * with all four promotions for each pawn move from the seventh rank.
 */
module GeneratorProperties {
  import opened Bitboards
  import opened Geometry
  import opened MoveEncoding
  import opened BoardStates
  import opened MoveGeneration

  // ---------------------------------------------------------------------
  // What a sound move is
  // ---------------------------------------------------------------------

  /**
   * A knight .. king move that is not a castle: from a square the piece
   * stands on to a square it attacks that its own side does not hold, a
   * capture exactly when an opponent piece is there, with no other flag.
   */
  ghost predicate PieceMoveSound(st: BoardState, m: Move)
    requires WellFormed(st)
  {
    var piece, start, target := GetPiece(m), GetStartSquareIndex(m), GetTargetSquareIndex(m);
    0 <= piece < 12 && start in Squares(st.bitboards[piece]) && target in PieceTargets(st, piece, start) &&
    (IsCapture(m) <==> target in Squares(st.occupancies[Opponent(st.sideToMove)])) &&
    GetPromotedPiece(m) == 0 && !IsDoublePawnPush(m) && !IsEnPassant(m)
  }

  /**
   * A pawn move: from a square a pawn of the mover stands on; a promotion
   * exactly when it leaves the seventh rank other than en passant, to a
   * knight .. queen of its side; a capture onto an attacked square holding
   * an opponent piece or onto the en-passant square; otherwise a push onto
   * the empty square ahead, or a double push from the second rank over two
   * empty squares.
   */
  ghost predicate PawnMoveSound(st: BoardState, m: Move)
    requires WellFormed(st)
  {
    var side, start, target, promoted := st.sideToMove, GetStartSquareIndex(m), GetTargetSquareIndex(m), GetPromotedPiece(m);
    var occupied := Squares(st.occupancies[BOTH]);
    start in Squares(st.bitboards[PieceOf(side, PAWN)]) &&
    (promoted != 0 <==> OnSeventh(side, start) && !IsEnPassant(m)) &&
    (promoted != 0 ==> PieceOf(side, KNIGHT) <= promoted <= PieceOf(side, QUEEN)) &&
    if IsCapture(m) then
      target in PawnAttackSet(side, start) && !IsDoublePawnPush(m) &&
      if IsEnPassant(m) then target == st.enPassantSquareIndex
      else target in Squares(st.occupancies[Opponent(side)])
    else
      !IsEnPassant(m) && start + Forward(side) !in occupied &&
      if IsDoublePawnPush(m) then OnSecond(side, start) && target == start + 2 * Forward(side) && target !in occupied
      else target == start + Forward(side)
  }

  /** The king-side castle's conditions: the right is held, f and g are empty, and f is not attacked. */
  ghost predicate KingSideOpen(st: BoardState)
    requires WellFormed(st)
  {
    var white := st.sideToMove == WHITE;
    var occupied := Squares(st.occupancies[BOTH]);
    st.canCastle & (if white then CASTLE_K else CASTLE_k) != 0 &&
    (if white then F1 else F8) !in occupied && (if white then G1 else G8) !in occupied &&
    !AttackedBy(st, if white then F1 else F8, Opponent(st.sideToMove))
  }

  /** The queen-side castle's conditions: the right is held, d, c and b are empty, and d is not attacked. */
  ghost predicate QueenSideOpen(st: BoardState)
    requires WellFormed(st)
  {
    var white := st.sideToMove == WHITE;
    var occupied := Squares(st.occupancies[BOTH]);
    st.canCastle & (if white then CASTLE_Q else CASTLE_q) != 0 &&
    (if white then D1 else D8) !in occupied && (if white then C1 else C8) !in occupied && (if white then B1 else B8) !in occupied &&
    !AttackedBy(st, if white then D1 else D8, Opponent(st.sideToMove))
  }

  /** A castle: the king from its home square, which is not attacked, two squares towards a side whose conditions hold. */
  ghost predicate CastleSound(st: BoardState, m: Move)
    requires WellFormed(st)
  {
    var white := st.sideToMove == WHITE;
    var start, target := GetStartSquareIndex(m), GetTargetSquareIndex(m);
    GetPiece(m) == PieceOf(st.sideToMove, KING) && GetPromotedPiece(m) == 0 &&
    !IsCapture(m) && !IsDoublePawnPush(m) && !IsEnPassant(m) &&
    start == (if white then E1 else E8) && !AttackedBy(st, start, Opponent(st.sideToMove)) &&
    ((target == (if white then G1 else G8) && KingSideOpen(st)) ||
     (target == (if white then C1 else C8) && QueenSideOpen(st)))
  }

  /** A move of the side to move that is sound for its kind. */
  ghost predicate MoveSound(st: BoardState, m: Move)
    requires WellFormed(st)
  {
    var piece := GetPiece(m);
    0 <= piece < 12 && SideOf(piece) == st.sideToMove &&
    if IsCastling(m) then CastleSound(st, m)
    else if KindOf(piece) == PAWN then PawnMoveSound(st, m)
    else PieceMoveSound(st, m)
  }

  /** Every move of the list is sound. */
  ghost predicate AllSound(st: BoardState, moves: seq<Move>)
    requires WellFormed(st)
  {
    forall m :: m in moves ==> MoveSound(st, m)
  }

  // ---------------------------------------------------------------------
  // Soundness, builder by builder
  // ---------------------------------------------------------------------

  /** The moves to listed targets are sound when each target is one the piece may move to. */
  lemma {:induction false} TargetMovesSound(st: BoardState, piece: int, start: int, targets: seq<Square>)
    requires WellFormed(st) && 0 <= piece < 12 && SideOf(piece) == st.sideToMove && KindOf(piece) != PAWN
    requires 0 <= start < 64 && start in Squares(st.bitboards[piece])
    requires forall t :: t in targets ==> t in PieceTargets(st, piece, start)
    ensures AllSound(st, TargetMoves(start, piece, targets, Squares(st.occupancies[Opponent(SideOf(piece))])))
  {
    if targets != [] {
      TargetMovesSound(st, piece, start, targets[1..]);
      var t := targets[0];
      var m := CreateMove(start, t, piece, 0, t in Squares(st.occupancies[Opponent(SideOf(piece))]), false, false, false);
      assert PieceMoveSound(st, m);
      assert TargetMoves(start, piece, targets, Squares(st.occupancies[Opponent(SideOf(piece))])) ==
        [m] + TargetMoves(start, piece, targets[1..], Squares(st.occupancies[Opponent(SideOf(piece))]));
    }
  }

  /** The moves of listed starts are sound when the piece stands on each of them. */
  lemma {:induction false} PieceMovesOfSound(st: BoardState, piece: int, starts: seq<Square>)
    requires WellFormed(st) && 0 <= piece < 12 && SideOf(piece) == st.sideToMove && KindOf(piece) != PAWN
    requires forall s :: s in starts ==> s in Squares(st.bitboards[piece])
    ensures AllSound(st, PieceMovesOf(st, piece, starts))
  {
    if starts != [] {
      var s := starts[0];
      var targets := Ascending(PieceTargets(st, piece, s), 0);
      forall t | t in targets
        ensures t in PieceTargets(st, piece, s)
      {
        AscendingMembers(PieceTargets(st, piece, s), 0, t);
      }
      TargetMovesSound(st, piece, s, targets);
      PieceMovesOfSound(st, piece, starts[1..]);
    }
  }

  /** The moves of a board of the mover's knights .. king are sound. */
  lemma BoardMovesSound(st: BoardState, piece: int)
    requires WellFormed(st) && 0 <= piece < 12 && SideOf(piece) == st.sideToMove && KindOf(piece) != PAWN
    ensures AllSound(st, BoardMoves(st, piece))
  {
    forall s | s in Ascending(Squares(st.bitboards[piece]), 0)
      ensures s in Squares(st.bitboards[piece])
    {
      AscendingMembers(Squares(st.bitboards[piece]), 0, s);
    }
    PieceMovesOfSound(st, piece, Ascending(Squares(st.bitboards[piece]), 0));
  }

  /** Every promotion move carries the given squares, piece and capture flag, and a promoted piece in the range. */
  lemma {:induction false} PromotionsFromMembers(start: int, target: int, piece: int, promoted: int, last: int, capture: bool, m: Move)
    requires 0 <= start < 64 && 0 <= target < 64 && 0 <= piece < 12 && 0 <= promoted && last < 12
    requires m in PromotionsFrom(start, target, piece, promoted, last, capture)
    ensures GetStartSquareIndex(m) == start && GetTargetSquareIndex(m) == target && GetPiece(m) == piece
    ensures promoted <= GetPromotedPiece(m) <= last
    ensures IsCapture(m) == capture && !IsDoublePawnPush(m) && !IsEnPassant(m) && !IsCastling(m)
    decreases last + 1 - promoted
  {
    var first := CreateMove(start, target, piece, promoted, capture, false, false, false);
    if m != first {
      PromotionsFromMembers(start, target, piece, promoted + 1, last, capture, m);
    }
  }

  /** A pawn move from `start` to `target` whose flags suit a sound pawn move, in both the promotion and the plain case. */
  lemma PawnStepSound(st: BoardState, start: int, target: int, capture: bool, m: Move)
    requires WellFormed(st) && 0 <= start < 64 && 0 <= target < 64
    requires start in Squares(st.bitboards[PieceOf(st.sideToMove, PAWN)])
    requires capture ==> target in PawnTargets(st, st.sideToMove, start)
    requires !capture ==> target == start + Forward(st.sideToMove) && target !in Squares(st.occupancies[BOTH])
    requires m in PawnStep(st.sideToMove, start, target, capture)
    ensures MoveSound(st, m)
  {
    var side := st.sideToMove;
    if OnSeventh(side, start) {
      PromotionsFromMembers(start, target, PieceOf(side, PAWN), PieceOf(side, KNIGHT), PieceOf(side, QUEEN), capture, m);
    }
  }

  /** The single push onto the empty square ahead, off the seventh rank, is sound. */
  lemma SinglePushSound(st: BoardState, start: int, target: int)
    requires WellFormed(st) && 0 <= start < 64 && start in Squares(st.bitboards[PieceOf(st.sideToMove, PAWN)])
    requires 0 <= target < 64 && target == start + Forward(st.sideToMove) && target !in Squares(st.occupancies[BOTH])
    requires !OnSeventh(st.sideToMove, start)
    ensures MoveSound(st, CreateMove(start, target, PieceOf(st.sideToMove, PAWN), 0, false, false, false, false))
  {
  }

  /** The double push from the second rank over two empty squares is sound. */
  lemma DoublePushSound(st: BoardState, start: int, target: int)
    requires WellFormed(st) && 0 <= start < 64 && start in Squares(st.bitboards[PieceOf(st.sideToMove, PAWN)])
    requires OnSecond(st.sideToMove, start) && target == start + 2 * Forward(st.sideToMove)
    requires start + Forward(st.sideToMove) !in Squares(st.occupancies[BOTH]) && target !in Squares(st.occupancies[BOTH])
    ensures 0 <= target < 64
    ensures MoveSound(st, CreateMove(start, target, PieceOf(st.sideToMove, PAWN), 0, false, true, false, false))
  {
  }

  /** The pushes of a pawn of the mover are sound. */
  lemma PawnPushesSound(st: BoardState, start: int)
    requires WellFormed(st) && 0 <= start < 64 && start in Squares(st.bitboards[PieceOf(st.sideToMove, PAWN)])
    ensures AllSound(st, PawnPushes(st, st.sideToMove, start))
  {
    var side := st.sideToMove;
    var target := start + Forward(side);
    var occupied := Squares(st.occupancies[BOTH]);
    if !((side == WHITE && target < A8) || (side == BLACK && target > H1)) && target !in occupied {
      if OnSeventh(side, start) {
        forall m | m in PawnPushes(st, side, start)
          ensures MoveSound(st, m)
        {
          PawnStepSound(st, start, target, false, m);
        }
      } else {
        SinglePushSound(st, start, target);
        if OnSecond(side, start) && target + Forward(side) !in occupied {
          DoublePushSound(st, start, target + Forward(side));
        }
      }
    }
  }

  /** The captures onto listed squares are sound when each holds an opponent piece the pawn attacks. */
  lemma {:induction false} PawnCapturesOfSound(st: BoardState, start: int, targets: seq<Square>)
    requires WellFormed(st) && 0 <= start < 64 && start in Squares(st.bitboards[PieceOf(st.sideToMove, PAWN)])
    requires forall t :: t in targets ==> t in PawnTargets(st, st.sideToMove, start)
    ensures AllSound(st, PawnCapturesOf(st.sideToMove, start, targets))
  {
    if targets != [] {
      var t := targets[0];
      assert t in PawnTargets(st, st.sideToMove, start);
      forall m | m in PawnStep(st.sideToMove, start, t, true)
        ensures MoveSound(st, m)
      {
        PawnStepSound(st, start, t, true, m);
      }
      PawnCapturesOfSound(st, start, targets[1..]);
    }
  }

  /** The moves of one pawn of the mover are sound. */
  lemma PawnMovesFromSound(st: BoardState, start: int)
    requires WellFormed(st) && 0 <= start < 64 && start in Squares(st.bitboards[PieceOf(st.sideToMove, PAWN)])
    ensures AllSound(st, PawnMovesFrom(st, st.sideToMove, start))
  {
    var side := st.sideToMove;
    PawnPushesSound(st, start);
    forall t | t in Ascending(PawnTargets(st, side, start), 0)
      ensures t in PawnTargets(st, side, start)
    {
      AscendingMembers(PawnTargets(st, side, start), 0, t);
    }
    PawnCapturesOfSound(st, start, Ascending(PawnTargets(st, side, start), 0));
    var ep := st.enPassantSquareIndex;
    if ep != NO_SQUARE_INDEX && ep in PawnAttackSet(side, start) {
      var m := CreateMove(start, ep, PieceOf(side, PAWN), 0, true, false, true, false);
      assert MoveSound(st, m);
    }
  }

  /** The moves of listed pawns of the mover are sound. */
  lemma {:induction false} PawnMovesOfSound(st: BoardState, starts: seq<Square>)
    requires WellFormed(st)
    requires forall s :: s in starts ==> s in Squares(st.bitboards[PieceOf(st.sideToMove, PAWN)])
    ensures AllSound(st, PawnMovesOf(st, st.sideToMove, starts))
  {
    if starts != [] {
      PawnMovesFromSound(st, starts[0]);
      PawnMovesOfSound(st, starts[1..]);
    }
  }

  /** The castles of the mover are sound. */
  lemma CastlesSound(st: BoardState)
    requires WellFormed(st)
    ensures AllSound(st, CastleKingSide(st) + CastleQueenSide(st))
  {
    var white := st.sideToMove == WHITE;
    if CastleKingSide(st) != [] {
      var m := CreateMove(if white then E1 else E8, if white then G1 else G8, PieceOf(st.sideToMove, KING), 0, false, false, false, true);
      assert CastleSound(st, m);
    }
    if CastleQueenSide(st) != [] {
      var m := CreateMove(if white then E1 else E8, if white then C1 else C8, PieceOf(st.sideToMove, KING), 0, false, false, false, true);
      assert CastleSound(st, m);
    }
  }

  /** The moves emitted for one piece board are sound. */
  lemma SectionSound(st: BoardState, piece: int)
    requires WellFormed(st) && 0 <= piece < 12
    ensures AllSound(st, Section(st, piece))
  {
    if SideOf(piece) == st.sideToMove {
      if KindOf(piece) == PAWN {
        assert piece == PieceOf(st.sideToMove, PAWN);
        forall s | s in Ascending(Squares(st.bitboards[piece]), 0)
          ensures s in Squares(st.bitboards[piece])
        {
          AscendingMembers(Squares(st.bitboards[piece]), 0, s);
        }
        PawnMovesOfSound(st, Ascending(Squares(st.bitboards[piece]), 0));
      } else {
        BoardMovesSound(st, piece);
        if KindOf(piece) == KING {
          CastlesSound(st);
        }
      }
    }
  }

  /** The moves emitted for pieces 0 .. n-1 are sound. */
  lemma {:induction false} SectionsBelowSound(st: BoardState, n: int)
    requires WellFormed(st) && 0 <= n <= 12
    ensures AllSound(st, SectionsBelow(st, n))
  {
    if n > 0 {
      SectionsBelowSound(st, n - 1);
      SectionSound(st, n - 1);
    }
  }

  /** Every move generateMoves emits is sound. */
  lemma GeneratedSound(st: BoardState)
    requires WellFormed(st)
    ensures forall m :: m in Generated(st) ==> MoveSound(st, m)
  {
    SectionsBelowSound(st, 12);
  }

  // ---------------------------------------------------------------------
  // Completeness for knights .. kings and castles
  // ---------------------------------------------------------------------

  /** A section is part of the sections of any larger prefix of the piece order. */
  lemma {:induction false} SectionInBelow(st: BoardState, piece: int, n: int, m: Move)
    requires WellFormed(st) && 0 <= piece < n <= 12 && m in Section(st, piece)
    ensures m in SectionsBelow(st, n)
  {
    if piece < n - 1 {
      SectionInBelow(st, piece, n - 1, m);
    }
  }

  /** The move to a listed target is among the moves to the listed targets. */
  lemma {:induction false} TargetMovesHas(start: int, piece: int, targets: seq<Square>, opponents: set<int>, t: Square)
    requires 0 <= start < 64 && 0 <= piece < 12 && t in targets
    ensures CreateMove(start, t, piece, 0, t in opponents, false, false, false) in TargetMoves(start, piece, targets, opponents)
  {
    if targets[0] != t {
      TargetMovesHas(start, piece, targets[1..], opponents, t);
    }
  }

  /** The moves of a listed start are among the moves of the listed starts. */
  lemma {:induction false} PieceMovesOfHas(st: BoardState, piece: int, starts: seq<Square>, s: Square, m: Move)
    requires WellFormed(st) && 0 <= piece < 12 && s in starts
    requires m in TargetMoves(s, piece, Ascending(PieceTargets(st, piece, s), 0), Squares(st.occupancies[Opponent(SideOf(piece))]))
    ensures m in PieceMovesOf(st, piece, starts)
  {
    if starts[0] != s {
      PieceMovesOfHas(st, piece, starts[1..], s, m);
    }
  }

  /** The move of a piece from a square it stands on to one of its targets is among the board's moves. */
  lemma BoardMovesHas(st: BoardState, piece: int, s: Square, t: Square)
    requires WellFormed(st) && 0 <= piece < 12
    requires s in Squares(st.bitboards[piece]) && t in PieceTargets(st, piece, s)
    ensures CreateMove(s, t, piece, 0, t in Squares(st.occupancies[Opponent(SideOf(piece))]), false, false, false) in BoardMoves(st, piece)
  {
    var opponents := Squares(st.occupancies[Opponent(SideOf(piece))]);
    var m := CreateMove(s, t, piece, 0, t in opponents, false, false, false);
    assert m in TargetMoves(s, piece, Ascending(PieceTargets(st, piece, s), 0), opponents) by {
      AscendingMembers(PieceTargets(st, piece, s), 0, t);
      TargetMovesHas(s, piece, Ascending(PieceTargets(st, piece, s), 0), opponents, t);
    }
    AscendingMembers(Squares(st.bitboards[piece]), 0, s);
    PieceMovesOfHas(st, piece, Ascending(Squares(st.bitboards[piece]), 0), s, m);
  }

  /**
   * Every move of a knight .. king of the mover from a square it stands on
   * to a square it attacks that its side does not hold is emitted, flagged
   * as a capture exactly when an opponent piece is there.
   */
  lemma PieceMoveGenerated(st: BoardState, piece: int, s: Square, t: Square)
    requires WellFormed(st) && 0 <= piece < 12 && SideOf(piece) == st.sideToMove && KindOf(piece) != PAWN
    requires s in Squares(st.bitboards[piece]) && t in PieceTargets(st, piece, s)
    ensures CreateMove(s, t, piece, 0, t in Squares(st.occupancies[Opponent(st.sideToMove)]), false, false, false) in Generated(st)
  {
    var m := CreateMove(s, t, piece, 0, t in Squares(st.occupancies[Opponent(SideOf(piece))]), false, false, false);
    BoardMovesHas(st, piece, s, t);
    assert m in Section(st, piece);
    SectionInBelow(st, piece, 12, m);
  }

  /** When the king-side conditions hold and the king's square is not attacked, the king-side castle is emitted. */
  lemma KingSideCastleGenerated(st: BoardState)
    requires WellFormed(st) && KingSideOpen(st)
    requires !AttackedBy(st, if st.sideToMove == WHITE then E1 else E8, Opponent(st.sideToMove))
    ensures var white := st.sideToMove == WHITE;
      CreateMove(if white then E1 else E8, if white then G1 else G8, PieceOf(st.sideToMove, KING), 0, false, false, false, true) in Generated(st)
  {
    var king := PieceOf(st.sideToMove, KING);
    SectionInBelow(st, king, 12, CastleKingSide(st)[0]);
  }

  /** When the queen-side conditions hold and the king's square is not attacked, the queen-side castle is emitted. */
  lemma QueenSideCastleGenerated(st: BoardState)
    requires WellFormed(st) && QueenSideOpen(st)
    requires !AttackedBy(st, if st.sideToMove == WHITE then E1 else E8, Opponent(st.sideToMove))
    ensures var white := st.sideToMove == WHITE;
      CreateMove(if white then E1 else E8, if white then C1 else C8, PieceOf(st.sideToMove, KING), 0, false, false, false, true) in Generated(st)
  {
    var king := PieceOf(st.sideToMove, KING);
    SectionInBelow(st, king, 12, CastleQueenSide(st)[0]);
  }

  // ---------------------------------------------------------------------
  // Completeness for pawns
  // ---------------------------------------------------------------------

  /** Every promotion in the range is among the promotions listed. */
  lemma {:induction false} PromotionsFromHas(start: int, target: int, piece: int, promoted: int, last: int, capture: bool, p: int)
    requires 0 <= start < 64 && 0 <= target < 64 && 0 <= piece < 12 && 0 <= promoted <= p <= last < 12
    ensures CreateMove(start, target, piece, p, capture, false, false, false) in PromotionsFrom(start, target, piece, promoted, last, capture)
    decreases last + 1 - promoted
  {
    if promoted < p {
      PromotionsFromHas(start, target, piece, promoted + 1, last, capture, p);
    }
  }

  /**
   * The promoted piece a pawn move from `start` carries: any of knight ..
   * queen of the side from the seventh rank, none from elsewhere.
   */
  predicate PromotionFits(side: int, start: int, promoted: int)
  {
    if OnSeventh(side, start) then PieceOf(side, KNIGHT) <= promoted <= PieceOf(side, QUEEN) else promoted == 0
  }

  /** A pawn's step onto a target holds the move with each fitting promoted piece. */
  lemma PawnStepHas(side: int, start: int, target: int, capture: bool, promoted: int)
    requires (side == WHITE || side == BLACK) && 0 <= start < 64 && 0 <= target < 64
    requires PromotionFits(side, start, promoted)
    ensures CreateMove(start, target, PieceOf(side, PAWN), promoted, capture, false, false, false) in PawnStep(side, start, target, capture)
  {
    if OnSeventh(side, start) {
      PromotionsFromHas(start, target, PieceOf(side, PAWN), PieceOf(side, KNIGHT), PieceOf(side, QUEEN), capture, promoted);
    }
  }

  /** The step onto a listed target is among the captures onto the listed targets. */
  lemma {:induction false} PawnCapturesOfHas(side: int, start: int, targets: seq<Square>, t: Square, m: Move)
    requires 0 <= start < 64 && t in targets && m in PawnStep(side, start, t, true)
    ensures m in PawnCapturesOf(side, start, targets)
  {
    if targets[0] != t {
      PawnCapturesOfHas(side, start, targets[1..], t, m);
    }
  }

  /** The moves of a pawn on a listed start are among the moves of the listed pawns. */
  lemma {:induction false} PawnMovesOfHas(st: BoardState, side: int, starts: seq<Square>, s: Square, m: Move)
    requires WellFormed(st) && (side == WHITE || side == BLACK) && s in starts && m in PawnMovesFrom(st, side, s)
    ensures m in PawnMovesOf(st, side, starts)
  {
    if starts[0] != s {
      PawnMovesOfHas(st, side, starts[1..], s, m);
    }
  }

  /** A move of a pawn of the mover standing on `s` is emitted. */
  lemma PawnMovesFromGenerated(st: BoardState, s: Square, m: Move)
    requires WellFormed(st) && s in Squares(st.bitboards[PieceOf(st.sideToMove, PAWN)])
    requires m in PawnMovesFrom(st, st.sideToMove, s)
    ensures m in Generated(st)
  {
    var pawn := PieceOf(st.sideToMove, PAWN);
    AscendingMembers(Squares(st.bitboards[pawn]), 0, s);
    PawnMovesOfHas(st, st.sideToMove, Ascending(Squares(st.bitboards[pawn]), 0), s, m);
    assert m in Section(st, pawn);
    SectionInBelow(st, pawn, 12, m);
  }

  /**
   * The push of a pawn of the mover onto the empty square ahead is
   * emitted: the plain push, or from the seventh rank each of the four
   * promotions.
   */
  lemma SinglePushGenerated(st: BoardState, s: Square, promoted: int)
    requires WellFormed(st) && s in Squares(st.bitboards[PieceOf(st.sideToMove, PAWN)])
    requires 0 <= s + Forward(st.sideToMove) < 64 && s + Forward(st.sideToMove) !in Squares(st.occupancies[BOTH])
    requires PromotionFits(st.sideToMove, s, promoted)
    ensures CreateMove(s, s + Forward(st.sideToMove), PieceOf(st.sideToMove, PAWN), promoted, false, false, false, false) in Generated(st)
  {
    var side := st.sideToMove;
    var m := CreateMove(s, s + Forward(side), PieceOf(side, PAWN), promoted, false, false, false, false);
    PawnStepHas(side, s, s + Forward(side), false, promoted);
    assert m in PawnPushes(st, side, s);
    PawnMovesFromGenerated(st, s, m);
  }

  /** The double push of a pawn of the mover from the second rank over two empty squares is emitted. */
  lemma DoublePushGenerated(st: BoardState, s: Square)
    requires WellFormed(st) && s in Squares(st.bitboards[PieceOf(st.sideToMove, PAWN)]) && OnSecond(st.sideToMove, s)
    requires s + Forward(st.sideToMove) !in Squares(st.occupancies[BOTH])
    requires s + 2 * Forward(st.sideToMove) !in Squares(st.occupancies[BOTH])
    ensures 0 <= s + 2 * Forward(st.sideToMove) < 64
    ensures CreateMove(s, s + 2 * Forward(st.sideToMove), PieceOf(st.sideToMove, PAWN), 0, false, true, false, false) in Generated(st)
  {
    var side := st.sideToMove;
    var m := CreateMove(s, s + 2 * Forward(side), PieceOf(side, PAWN), 0, false, true, false, false);
    assert m in PawnPushes(st, side, s);
    PawnMovesFromGenerated(st, s, m);
  }

  /**
   * The capture by a pawn of the mover of an opponent piece on a square it
   * attacks is emitted: the plain capture, or from the seventh rank each
   * of the four capturing promotions.
   */
  lemma PawnCaptureGenerated(st: BoardState, s: Square, t: Square, promoted: int)
    requires WellFormed(st) && s in Squares(st.bitboards[PieceOf(st.sideToMove, PAWN)])
    requires t in PawnAttackSet(st.sideToMove, s) && t in Squares(st.occupancies[Opponent(st.sideToMove)])
    requires PromotionFits(st.sideToMove, s, promoted)
    ensures CreateMove(s, t, PieceOf(st.sideToMove, PAWN), promoted, true, false, false, false) in Generated(st)
  {
    var side := st.sideToMove;
    var m := CreateMove(s, t, PieceOf(side, PAWN), promoted, true, false, false, false);
    var targets := Ascending(PawnTargets(st, side, s), 0);
    AscendingMembers(PawnTargets(st, side, s), 0, t);
    PawnStepHas(side, s, t, true, promoted);
    PawnCapturesOfHas(side, s, targets, t, m);
    assert m in PawnMovesFrom(st, side, s);
    PawnMovesFromGenerated(st, s, m);
  }

  /** The en-passant capture by a pawn of the mover that attacks the en-passant square is emitted. */
  lemma EnPassantGenerated(st: BoardState, s: Square)
    requires WellFormed(st) && s in Squares(st.bitboards[PieceOf(st.sideToMove, PAWN)])
    requires st.enPassantSquareIndex != NO_SQUARE_INDEX && st.enPassantSquareIndex in PawnAttackSet(st.sideToMove, s)
    ensures CreateMove(s, st.enPassantSquareIndex, PieceOf(st.sideToMove, PAWN), 0, true, false, true, false) in Generated(st)
  {
    var m := CreateMove(s, st.enPassantSquareIndex, PieceOf(st.sideToMove, PAWN), 0, true, false, true, false);
    assert m in PawnEnPassant(st, st.sideToMove, s);
    assert m in PawnMovesFrom(st, st.sideToMove, s);
    PawnMovesFromGenerated(st, s, m);
  }
}
