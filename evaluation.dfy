/**
 * The static evaluation of main.cpp (staticEvaluate): material plus a
 * piece-square bonus for every piece on the board, white pieces counted
 * positively and black ones negatively, then seen from the side to move.
 *
 * The score tables of const.h are inputs. As in the engine, queens get no
 * square bonus, the white king is scored with the pawn table and the black
 * king with the king table, so the evaluation is not colour-symmetric.
 */
module Evaluations {
  import opened Bitboards
  import opened Geometry
  import opened BoardStates

  /** MATERIAL_SCORE, PAWN_SCORE, KNIGHT_SCORE, BISHOP_SCORE, ROOK_SCORE, KING_SCORE and OPPOSITE_SIDE. */
  datatype EvalTables = EvalTables(
    material: seq<int>,
    pawn: seq<int>,
    knight: seq<int>,
    bishop: seq<int>,
    rook: seq<int>,
    king: seq<int>,
    oppositeSide: seq<int>)

  /** Twelve material values, 64 entries per square table, and OPPOSITE_SIDE mapping squares to squares. */
  predicate TablesShaped(t: EvalTables)
  {
    |t.material| == 12 && |t.pawn| == 64 && |t.knight| == 64 && |t.bishop| == 64 &&
    |t.rook| == 64 && |t.king| == 64 && |t.oppositeSide| == 64 &&
    forall s :: 0 <= s < 64 ==> 0 <= t.oppositeSide[s] < 64
  }

  /** The square bonus of the switch in staticEvaluate; black reads its tables at the mirrored square. */
  function SquareBonus(t: EvalTables, piece: int, sq: int): int
    requires TablesShaped(t) && 0 <= piece < 12 && 0 <= sq < 64
  {
    var m := t.oppositeSide[sq];
    if piece == WHITE_PAWN then t.pawn[sq]
    else if piece == WHITE_KNIGHT then t.knight[sq]
    else if piece == WHITE_BISHOP then t.bishop[sq]
    else if piece == WHITE_ROOK then t.rook[sq]
    else if piece == WHITE_KING then t.pawn[sq]
    else if piece == BLACK_PAWN then -t.pawn[m]
    else if piece == BLACK_KNIGHT then -t.knight[m]
    else if piece == BLACK_BISHOP then -t.bishop[m]
    else if piece == BLACK_ROOK then -t.rook[m]
    else if piece == BLACK_KING then -t.king[m]
    else 0
  }

  /** What one piece on one square adds to the white-relative score. */
  function PieceScore(t: EvalTables, piece: int, sq: int): int
    requires TablesShaped(t) && 0 <= piece < 12 && 0 <= sq < 64
  {
    t.material[piece] + SquareBonus(t, piece, sq)
  }

  /** The sum of PieceScore over the squares k >= from in `squares`. */
  function SetScore(t: EvalTables, piece: int, squares: set<int>, from: int): int
    requires TablesShaped(t) && 0 <= piece < 12 && 0 <= from <= 64
    decreases 64 - from
  {
    if from == 64 then 0
    else if from in squares then PieceScore(t, piece, from) + SetScore(t, piece, squares, from + 1)
    else SetScore(t, piece, squares, from + 1)
  }

  /** The white-relative score of pieces 0 .. n-1. */
  function BoardsScore(t: EvalTables, boards: seq<Bitboard>, n: int): int
    requires TablesShaped(t) && |boards| == 12 && 0 <= n <= 12
  {
    if n == 0 then 0 else BoardsScore(t, boards, n - 1) + SetScore(t, n - 1, Squares(boards[n - 1]), 0)
  }

  /** The value staticEvaluate returns: the white-relative score, negated when black is to move. */
  function Evaluation(t: EvalTables, st: BoardState): int
    requires TablesShaped(t) && WellFormed(st)
  {
    var score := BoardsScore(t, st.bitboards, 12);
    if st.sideToMove == WHITE then score else -score
  }

  /** An empty board contributes nothing. */
  lemma {:induction false} SetScoreEmpty(t: EvalTables, piece: int, from: int)
    requires TablesShaped(t) && 0 <= piece < 12 && 0 <= from <= 64
    ensures SetScore(t, piece, {}, from) == 0
    decreases 64 - from
  {
    if from < 64 {
      SetScoreEmpty(t, piece, from + 1);
    }
  }

  /** Adding an absent square x at or after `from` adds that square's PieceScore, whatever the order of the sum. */
  lemma {:induction false} SetScoreAdd(t: EvalTables, piece: int, squares: set<int>, x: int, from: int)
    requires TablesShaped(t) && 0 <= piece < 12 && 0 <= from <= 64 && 0 <= x < 64 && x !in squares
    ensures SetScore(t, piece, squares + {x}, from) ==
      if from <= x then SetScore(t, piece, squares, from) + PieceScore(t, piece, x) else SetScore(t, piece, squares, from)
    decreases 64 - from
  {
    if from < 64 {
      SetScoreAdd(t, piece, squares, x, from + 1);
    }
  }

  /** Taking the lowest square off a board takes its PieceScore off the board's score. */
  lemma SetScorePop(t: EvalTables, piece: int, b: Bitboard)
    requires TablesShaped(t) && 0 <= piece < 12 && b != 0
    ensures SetScore(t, piece, Squares(b), 0) ==
      PieceScore(t, piece, LowestSquare(b)) + SetScore(t, piece, Squares(PopBit(b, LowestSquare(b))), 0)
  {
    var s := LowestSquare(b);
    var rest := Squares(PopBit(b, s));
    assert rest + {s} == Squares(b);
    SetScoreAdd(t, piece, rest, s, 0);
  }

  /** Replacing board p changes the score by the difference of its old and new board scores, and nothing else. */
  lemma {:induction false} BoardsScoreUpdate(t: EvalTables, boards: seq<Bitboard>, p: int, b: Bitboard, n: int)
    requires TablesShaped(t) && |boards| == 12 && 0 <= p < 12 && 0 <= n <= 12
    ensures BoardsScore(t, boards[p := b], n) ==
      if p < n then BoardsScore(t, boards, n) - SetScore(t, p, Squares(boards[p]), 0) + SetScore(t, p, Squares(b), 0)
      else BoardsScore(t, boards, n)
  {
    if n > 0 {
      BoardsScoreUpdate(t, boards, p, b, n - 1);
    }
  }

  /**
   * Evaluation is additive: putting piece p on a square where it is not
   * yet changes the white-relative score by exactly that piece's material
   * and square bonus.
   */
  lemma PlacePiece(t: EvalTables, st: BoardState, p: int, s: int)
    requires TablesShaped(t) && WellFormed(st) && 0 <= p < 12 && 0 <= s < 64 && s !in Squares(st.bitboards[p])
    ensures BoardsScore(t, st.bitboards[p := SetBit(st.bitboards[p], s)], 12) ==
            BoardsScore(t, st.bitboards, 12) + PieceScore(t, p, s)
  {
    SetScoreAdd(t, p, Squares(st.bitboards[p]), s, 0);
    BoardsScoreUpdate(t, st.bitboards, p, SetBit(st.bitboards[p], s), 12);
  }

  /** The evaluation is relative to the side to move: handing the move to the other side negates it. */
  lemma SideRelative(t: EvalTables, st: BoardState)
    requires TablesShaped(t) && WellFormed(st)
    ensures Evaluation(t, st.(sideToMove := Opponent(st.sideToMove))) == -Evaluation(t, st)
  {
  }

  /** The evaluation depends on the pieces and the side to move only, not on the hash, castling rights or en passant. */
  lemma PiecesOnly(t: EvalTables, st: BoardState, st': BoardState)
    requires TablesShaped(t) && WellFormed(st) && WellFormed(st')
    requires st'.bitboards == st.bitboards && st'.sideToMove == st.sideToMove
    ensures Evaluation(t, st') == Evaluation(t, st)
  {
  }

  /** Queens score their material only, wherever they stand. */
  lemma QueensMaterialOnly(t: EvalTables, sq: int, sq': int)
    requires TablesShaped(t) && 0 <= sq < 64 && 0 <= sq' < 64
    ensures PieceScore(t, WHITE_QUEEN, sq) == PieceScore(t, WHITE_QUEEN, sq')
    ensures PieceScore(t, BLACK_QUEEN, sq) == PieceScore(t, BLACK_QUEEN, sq')
  {
  }
}
