/**
 * The state a `Board` of main.cpp holds, as a value, and the read-only
 * queries on it: the occupancy bitboards, whether a square is attacked, and
 * whether the side to move is in check.
 *
 * Pieces are numbered as in enum.h: white pawn, knight, bishop, rook, queen,
 * king (0 .. 5), then the black pieces in the same order (6 .. 11). Square 0
 * is a8 and square 63 is h1. The side to move is 0 (white) or 1 (black);
 * index 2 of the occupancies holds both sides.
 */
module BoardStates {
  import opened Wrappers
  import opened Bitboards
  import opened Geometry
  import opened AttackTables

  const WHITE_PAWN := 0
  const WHITE_KNIGHT := 1
  const WHITE_BISHOP := 2
  const WHITE_ROOK := 3
  const WHITE_QUEEN := 4
  const WHITE_KING := 5
  const BLACK_PAWN := 6
  const BLACK_KNIGHT := 7
  const BLACK_BISHOP := 8
  const BLACK_ROOK := 9
  const BLACK_QUEEN := 10
  const BLACK_KING := 11

  /** Piece kinds, the offset of a piece within its side's six. */
  const PAWN := 0
  const KNIGHT := 1
  const BISHOP := 2
  const ROOK := 3
  const QUEEN := 4
  const KING := 5

  /** Squares named in main.cpp (rank 8 is row 0). */
  const A8 := 0
  const B8 := 1
  const C8 := 2
  const D8 := 3
  const E8 := 4
  const F8 := 5
  const G8 := 6
  const H8 := 7
  const A7 := 8
  const H7 := 15
  const A2 := 48
  const H2 := 55
  const A1 := 56
  const B1 := 57
  const C1 := 58
  const D1 := 59
  const E1 := 60
  const F1 := 61
  const G1 := 62
  const H1 := 63

  /** The en-passant square when there is none. */
  const NO_SQUARE_INDEX := 64

  /** Castling-right bits: white king side, white queen side, black king side, black queen side. */
  const CASTLE_K: bv4 := 1
  const CASTLE_Q: bv4 := 2
  const CASTLE_k: bv4 := 4
  const CASTLE_q: bv4 := 8

  /** The piece of a given kind for a side. */
  function PieceOf(side: int, kind: int): int
  {
    if side == WHITE then kind else kind + 6
  }

  /** `sideToMove ^ 1` for a side that is 0 or 1. */
  function Opponent(side: int): int
  {
    if side == WHITE then BLACK else WHITE
  }

  /**
   * The fields of a Board: twelve piece bitboards, three occupancies, the
   * side to move, the en-passant square, the castling rights and the hash key.
   */
  datatype BoardState = BoardState(
    bitboards: seq<Bitboard>,
    occupancies: seq<Bitboard>,
    sideToMove: int,
    enPassantSquareIndex: int,
    canCastle: bv4,
    hashKey: Bitboard)

  /** The array sizes of the class, a side that is white or black, and an en-passant square or none. */
  predicate WellFormed(st: BoardState)
  {
    |st.bitboards| == 12 && |st.occupancies| == 3 &&
    (st.sideToMove == WHITE || st.sideToMove == BLACK) &&
    0 <= st.enPassantSquareIndex <= NO_SQUARE_INDEX
  }

  // ---------------------------------------------------------------------
  // Occupancies
  // ---------------------------------------------------------------------

  /** The OR of boards lo .. hi-1, accumulated upwards. */
  function Union(boards: seq<Bitboard>, lo: int, hi: int): Bitboard
    requires 0 <= lo && hi <= |boards|
    decreases hi - lo
  {
    if hi <= lo then 0 else Or(Union(boards, lo, hi - 1), boards[hi - 1])
  }

  /** A square is in the union exactly when one of the boards holds it. */
  lemma {:induction false} UnionSquares(boards: seq<Bitboard>, lo: int, hi: int, t: int)
    requires 0 <= lo && hi <= |boards|
    ensures t in Squares(Union(boards, lo, hi)) <==> exists p :: lo <= p < hi && t in Squares(boards[p])
    decreases hi - lo
  {
    if hi <= lo {
      SquaresZero();
    } else {
      UnionSquares(boards, lo, hi - 1, t);
      SquaresOrOf(Union(boards, lo, hi - 1), boards[hi - 1]);
    }
  }

  /** The occupancies populateOccupancies derives from zeroed ones. */
  function Occupancies(boards: seq<Bitboard>): (r: seq<Bitboard>)
    requires |boards| == 12
    ensures |r| == 3
  {
    [Union(boards, 0, 6), Union(boards, 6, 12), Or(Union(boards, 0, 6), Union(boards, 6, 12))]
  }

  /** A side's derived occupancy holds exactly that side's pieces. */
  lemma SideOccupancy(boards: seq<Bitboard>, side: int, t: int)
    requires |boards| == 12 && (side == WHITE || side == BLACK)
    ensures t in Squares(Occupancies(boards)[side]) <==> exists kind :: 0 <= kind < 6 && t in Squares(boards[PieceOf(side, kind)])
  {
    var lo := if side == WHITE then 0 else 6;
    UnionSquares(boards, lo, lo + 6, t);
    assert Occupancies(boards)[side] == Union(boards, lo, lo + 6);
    if t in Squares(Union(boards, lo, lo + 6)) {
      var p :| lo <= p < lo + 6 && t in Squares(boards[p]);
      assert PieceOf(side, p - lo) == p;
    }
    if exists kind :: 0 <= kind < 6 && t in Squares(boards[PieceOf(side, kind)]) {
      var kind :| 0 <= kind < 6 && t in Squares(boards[PieceOf(side, kind)]);
      assert lo <= PieceOf(side, kind) < lo + 6;
    }
  }

  // ---------------------------------------------------------------------
  // Attacks
  // ---------------------------------------------------------------------

  /** The squares a piece of `side` and `kind` standing on t attacks, with `occupied` blocking the sliders. */
  function PieceAttacks(side: int, kind: int, t: int, occupied: set<int>): set<int>
  {
    if kind == PAWN then PawnAttackSet(side, t)
    else if kind == KNIGHT then KnightAttackSet(t)
    else if kind == BISHOP then BishopAttackSet(t, occupied)
    else if kind == ROOK then RookAttackSet(t, occupied)
    else if kind == QUEEN then BishopAttackSet(t, occupied) + RookAttackSet(t, occupied)
    else KingAttackSet(t)
  }

  /** Some piece on `pieces` attacks sq. */
  ghost predicate HitsFrom(side: int, kind: int, pieces: Bitboard, sq: int, occupied: set<int>)
  {
    exists t :: t in Squares(pieces) && sq in PieceAttacks(side, kind, t, occupied)
  }

  /** Some piece of `side` attacks sq, the occupancy of both sides blocking the sliders. */
  ghost predicate AttackedBy(st: BoardState, sq: int, side: int)
    requires WellFormed(st)
  {
    exists kind :: 0 <= kind < 6 &&
      HitsFrom(side, kind, st.bitboards[PieceOf(side, kind)], sq, Squares(st.occupancies[BOTH]))
  }

  /**
   * isSquareAttacked (main.cpp): looks from the square with each piece's
   * attack pattern (the pawn pattern of the other colour) and reports
   * whether the pattern meets a piece of that kind belonging to `side`.
   * The sliders are looked up with the occupancy of both sides.
   */
  function SquareAttacked(attacks: AttackTable, st: BoardState, squareIndex: int, side: int): bool
    requires attacks.Valid() && WellFormed(st) && 0 <= squareIndex < 64 && (side == WHITE || side == BLACK)
    reads attacks.pawnAttacks, attacks.knightAttacks, attacks.kingAttacks, attacks.bishopAttacks, attacks.rookAttacks, attacks.bishopMasks, attacks.rookMasks, attacks.bishopMagics, attacks.rookMagics
  {
    var bb, occ := st.bitboards, st.occupancies[BOTH];
    ProbesMeet(attacks.GetPawnAttacks(Opponent(side), squareIndex), attacks.GetKnightAttacks(squareIndex),
      attacks.GetBishopAttacks(squareIndex, occ), attacks.GetRookAttacks(squareIndex, occ),
      attacks.GetQueenAttacks(squareIndex, occ), attacks.GetKingAttacks(squareIndex),
      bb[PieceOf(side, PAWN)], bb[PieceOf(side, KNIGHT)], bb[PieceOf(side, BISHOP)],
      bb[PieceOf(side, ROOK)], bb[PieceOf(side, QUEEN)], bb[PieceOf(side, KING)])
  }

  /**
   * The chain of tests isSquareAttacked makes, on the six lookups from the
   * square and the six piece boards of the attacking side, in source order.
   */
  function ProbesMeet(pawn: Bitboard, knight: Bitboard, bishop: Bitboard,
                      rook: Bitboard, queen: Bitboard, king: Bitboard,
                      pawns: Bitboard, knights: Bitboard, bishops: Bitboard,
                      rooks: Bitboard, queens: Bitboard, kings: Bitboard): bool
  {
    if pawn & pawns != 0 then true
    else if knight & knights != 0 then true
    else if bishop & bishops != 0 then true
    else if rook & rooks != 0 then true
    else if queen & queens != 0 then true
    else if king & kings != 0 then true
    else false
  }

  /** A probe meets a piece board exactly when they share a square. */
  lemma Meets(lookup: Bitboard, pieces: Bitboard)
    ensures (lookup & pieces != 0) <==> exists t :: t in Squares(pieces) && t in Squares(lookup)
  {
    SquaresAnd(lookup, pieces);
    ZeroIsEmpty(lookup & pieces);
    if lookup & pieces != 0 {
      var t :| t in Squares(lookup & pieces);
      assert t in Squares(pieces) && t in Squares(lookup);
    } else {
      forall t | t in Squares(pieces)
        ensures t !in Squares(lookup)
      {
        assert t !in Squares(lookup & pieces);
      }
    }
  }

  /**
   * One probe of isSquareAttacked: when the lookup from sq is the set of
   * squares from which the piece would attack sq, it meets the piece's
   * board exactly when one of those pieces attacks sq.
   */
  lemma ProbeMeaning(lookup: Bitboard, side: int, kind: int, pieces: Bitboard, sq: int, occupied: set<int>)
    requires forall t :: 0 <= t < 64 ==> (t in Squares(lookup) <==> sq in PieceAttacks(side, kind, t, occupied))
    ensures (lookup & pieces != 0) <==> HitsFrom(side, kind, pieces, sq, occupied)
  {
    Meets(lookup, pieces);
    if lookup & pieces != 0 {
      var t :| t in Squares(pieces) && t in Squares(lookup);
      assert sq in PieceAttacks(side, kind, t, occupied);
    }
    if HitsFrom(side, kind, pieces, sq, occupied) {
      var t :| t in Squares(pieces) && sq in PieceAttacks(side, kind, t, occupied);
      assert t in Squares(lookup);
    }
  }

  /** The pawn probe: the other colour's pawn pattern from sq finds the pawns attacking sq. */
  lemma PawnProbe(lookup: Bitboard, pieces: Bitboard, side: int, sq: int, occupied: set<int>)
    requires 0 <= sq < 64 && (side == WHITE || side == BLACK) && Squares(lookup) == PawnAttackSet(Opponent(side), sq)
    ensures (lookup & pieces != 0) <==> HitsFrom(side, PAWN, pieces, sq, occupied)
  {
    forall t | 0 <= t < 64
      ensures t in Squares(lookup) <==> sq in PieceAttacks(side, PAWN, t, occupied)
    {
      PawnAttackMirror(sq, t);
    }
    ProbeMeaning(lookup, side, PAWN, pieces, sq, occupied);
  }

  lemma KnightProbe(lookup: Bitboard, pieces: Bitboard, side: int, sq: int, occupied: set<int>)
    requires 0 <= sq < 64 && (side == WHITE || side == BLACK) && Squares(lookup) == KnightAttackSet(sq)
    ensures (lookup & pieces != 0) <==> HitsFrom(side, KNIGHT, pieces, sq, occupied)
  {
    forall t | 0 <= t < 64
      ensures t in Squares(lookup) <==> sq in PieceAttacks(side, KNIGHT, t, occupied)
    {
      KnightSymmetric(sq, t);
    }
    ProbeMeaning(lookup, side, KNIGHT, pieces, sq, occupied);
  }

  lemma KingProbe(lookup: Bitboard, pieces: Bitboard, side: int, sq: int, occupied: set<int>)
    requires 0 <= sq < 64 && (side == WHITE || side == BLACK) && Squares(lookup) == KingAttackSet(sq)
    ensures (lookup & pieces != 0) <==> HitsFrom(side, KING, pieces, sq, occupied)
  {
    forall t | 0 <= t < 64
      ensures t in Squares(lookup) <==> sq in PieceAttacks(side, KING, t, occupied)
    {
      KingSymmetric(sq, t);
    }
    ProbeMeaning(lookup, side, KING, pieces, sq, occupied);
  }

  lemma BishopProbe(lookup: Bitboard, pieces: Bitboard, side: int, sq: int, occupied: set<int>)
    requires 0 <= sq < 64 && (side == WHITE || side == BLACK) && Squares(lookup) == BishopAttackSet(sq, occupied)
    ensures (lookup & pieces != 0) <==> HitsFrom(side, BISHOP, pieces, sq, occupied)
  {
    forall t | 0 <= t < 64
      ensures t in Squares(lookup) <==> sq in PieceAttacks(side, BISHOP, t, occupied)
    {
      SliderSymmetric(true, sq, t, occupied);
    }
    ProbeMeaning(lookup, side, BISHOP, pieces, sq, occupied);
  }

  lemma RookProbe(lookup: Bitboard, pieces: Bitboard, side: int, sq: int, occupied: set<int>)
    requires 0 <= sq < 64 && (side == WHITE || side == BLACK) && Squares(lookup) == RookAttackSet(sq, occupied)
    ensures (lookup & pieces != 0) <==> HitsFrom(side, ROOK, pieces, sq, occupied)
  {
    forall t | 0 <= t < 64
      ensures t in Squares(lookup) <==> sq in PieceAttacks(side, ROOK, t, occupied)
    {
      SliderSymmetric(false, sq, t, occupied);
    }
    ProbeMeaning(lookup, side, ROOK, pieces, sq, occupied);
  }

  lemma QueenProbe(lookup: Bitboard, pieces: Bitboard, side: int, sq: int, occupied: set<int>)
    requires 0 <= sq < 64 && (side == WHITE || side == BLACK)
    requires Squares(lookup) == BishopAttackSet(sq, occupied) + RookAttackSet(sq, occupied)
    ensures (lookup & pieces != 0) <==> HitsFrom(side, QUEEN, pieces, sq, occupied)
  {
    forall t | 0 <= t < 64
      ensures t in Squares(lookup) <==> sq in PieceAttacks(side, QUEEN, t, occupied)
    {
      SliderSymmetric(true, sq, t, occupied);
      SliderSymmetric(false, sq, t, occupied);
    }
    ProbeMeaning(lookup, side, QUEEN, pieces, sq, occupied);
  }

  /** The lookups isSquareAttacked makes from sq, and what a ready table answers for each. */
  lemma Lookups(attacks: AttackTable, side: int, sq: int, occupancy: Bitboard)
      returns (pawn: Bitboard, knight: Bitboard, bishop: Bitboard, rook: Bitboard, queen: Bitboard, king: Bitboard)
    requires attacks.Ready() && 0 <= sq < 64 && (side == WHITE || side == BLACK)
    ensures pawn == attacks.GetPawnAttacks(Opponent(side), sq) && knight == attacks.GetKnightAttacks(sq)
    ensures bishop == attacks.GetBishopAttacks(sq, occupancy) && rook == attacks.GetRookAttacks(sq, occupancy)
    ensures queen == attacks.GetQueenAttacks(sq, occupancy) && king == attacks.GetKingAttacks(sq)
    ensures Squares(pawn) == PawnAttackSet(Opponent(side), sq)
    ensures Squares(knight) == KnightAttackSet(sq)
    ensures Squares(bishop) == BishopAttackSet(sq, Squares(occupancy))
    ensures Squares(rook) == RookAttackSet(sq, Squares(occupancy))
    ensures Squares(queen) == BishopAttackSet(sq, Squares(occupancy)) + RookAttackSet(sq, Squares(occupancy))
    ensures Squares(king) == KingAttackSet(sq)
  {
    pawn, knight, king := attacks.GetPawnAttacks(Opponent(side), sq), attacks.GetKnightAttacks(sq), attacks.GetKingAttacks(sq);
    bishop, rook, queen := attacks.GetBishopAttacks(sq, occupancy), attacks.GetRookAttacks(sq, occupancy), attacks.GetQueenAttacks(sq, occupancy);
    attacks.LeaperLookup(Opponent(side), sq);
    attacks.BishopLookup(sq, occupancy);
    attacks.RookLookup(sq, occupancy);
    attacks.QueenLookup(sq, occupancy);
  }

  /** Some piece on one of the six boards of `side` (pawns .. king) attacks sq. */
  ghost predicate AttackedFrom(side: int, sq: int, occupied: set<int>,
                               pawns: Bitboard, knights: Bitboard, bishops: Bitboard,
                               rooks: Bitboard, queens: Bitboard, kings: Bitboard)
  {
    HitsFrom(side, PAWN, pawns, sq, occupied) || HitsFrom(side, KNIGHT, knights, sq, occupied) ||
    HitsFrom(side, BISHOP, bishops, sq, occupied) || HitsFrom(side, ROOK, rooks, sq, occupied) ||
    HitsFrom(side, QUEEN, queens, sq, occupied) || HitsFrom(side, KING, kings, sq, occupied)
  }

  /** AttackedBy, one kind at a time. */
  lemma AttackedByKinds(st: BoardState, sq: int, side: int)
    requires WellFormed(st) && (side == WHITE || side == BLACK)
    ensures var bb := st.bitboards;
      AttackedBy(st, sq, side) <==>
        AttackedFrom(side, sq, Squares(st.occupancies[BOTH]),
          bb[PieceOf(side, PAWN)], bb[PieceOf(side, KNIGHT)], bb[PieceOf(side, BISHOP)],
          bb[PieceOf(side, ROOK)], bb[PieceOf(side, QUEEN)], bb[PieceOf(side, KING)])
  {
    if AttackedBy(st, sq, side) {
      var kind :| 0 <= kind < 6 &&
        HitsFrom(side, kind, st.bitboards[PieceOf(side, kind)], sq, Squares(st.occupancies[BOTH]));
      assert kind == PAWN || kind == KNIGHT || kind == BISHOP || kind == ROOK || kind == QUEEN || kind == KING;
    }
  }

  /**
   * The six probes, given lookups that hold the right squares: one of them
   * meets its piece board exactly when a piece on one of the boards attacks sq.
   */
  lemma ProbesMeaning(side: int, sq: int, occupied: set<int>,
                      pawn: Bitboard, knight: Bitboard, bishop: Bitboard,
                      rook: Bitboard, queen: Bitboard, king: Bitboard,
                      pawns: Bitboard, knights: Bitboard, bishops: Bitboard,
                      rooks: Bitboard, queens: Bitboard, kings: Bitboard)
    requires 0 <= sq < 64 && (side == WHITE || side == BLACK)
    requires Squares(pawn) == PawnAttackSet(Opponent(side), sq)
    requires Squares(knight) == KnightAttackSet(sq)
    requires Squares(bishop) == BishopAttackSet(sq, occupied)
    requires Squares(rook) == RookAttackSet(sq, occupied)
    requires Squares(queen) == BishopAttackSet(sq, occupied) + RookAttackSet(sq, occupied)
    requires Squares(king) == KingAttackSet(sq)
    ensures ProbesMeet(pawn, knight, bishop, rook, queen, king, pawns, knights, bishops, rooks, queens, kings)
        <==> AttackedFrom(side, sq, occupied, pawns, knights, bishops, rooks, queens, kings)
  {
    PawnProbe(pawn, pawns, side, sq, occupied);
    KnightProbe(knight, knights, side, sq, occupied);
    BishopProbe(bishop, bishops, side, sq, occupied);
    RookProbe(rook, rooks, side, sq, occupied);
    QueenProbe(queen, queens, side, sq, occupied);
    KingProbe(king, kings, side, sq, occupied);
  }

  /**
   * isSquareAttacked answers whether some piece of `side` attacks the
   * square: each probe from the square finds exactly the pieces of its kind
   * that attack it, because every attack pattern is symmetric (pawns after
   * swapping colours).
   */
  lemma SquareAttackedMeaning(attacks: AttackTable, st: BoardState, sq: int, side: int)
    requires attacks.Ready() && WellFormed(st) && 0 <= sq < 64 && (side == WHITE || side == BLACK)
    ensures SquareAttacked(attacks, st, sq, side) <==> AttackedBy(st, sq, side)
  {
    var bb, occ := st.bitboards, st.occupancies[BOTH];
    var pawn, knight, bishop, rook, queen, king := Lookups(attacks, side, sq, occ);
    ProbesMeaning(side, sq, Squares(occ), pawn, knight, bishop, rook, queen, king,
      bb[PieceOf(side, PAWN)], bb[PieceOf(side, KNIGHT)], bb[PieceOf(side, BISHOP)],
      bb[PieceOf(side, ROOK)], bb[PieceOf(side, QUEEN)], bb[PieceOf(side, KING)]);
    AttackedByKinds(st, sq, side);
  }

  // ---------------------------------------------------------------------
  // Check
  // ---------------------------------------------------------------------

  /** The bitboard of the king of the side to move. */
  function KingBoard(st: BoardState): Bitboard
    requires WellFormed(st)
  {
    if st.sideToMove == WHITE then st.bitboards[WHITE_KING] else st.bitboards[BLACK_KING]
  }

  /**
   * isKingInCheck (main.cpp): whether the other side attacks the lowest
   * square of the mover's king board. With no king on the board the
   * lowest-bit search throws.
   */
  function KingInCheck(attacks: AttackTable, st: BoardState): (r: Result<bool>)
    requires attacks.Valid() && WellFormed(st)
    reads attacks.pawnAttacks, attacks.knightAttacks, attacks.kingAttacks, attacks.bishopAttacks, attacks.rookAttacks, attacks.bishopMasks, attacks.rookMasks, attacks.bishopMagics, attacks.rookMagics
    ensures r.Failure? <==> KingBoard(st) == 0
    ensures r.Failure? ==> r.error == LSBOfEmptyBitboard
  {
    var king := KingBoard(st);
    if king == 0 then Failure(LSBOfEmptyBitboard)
    else Success(SquareAttacked(attacks, st, LowestSquare(king), Opponent(st.sideToMove)))
  }

  /** In check means: some enemy piece attacks the mover's (lowest) king. */
  lemma KingInCheckMeaning(attacks: AttackTable, st: BoardState)
    requires attacks.Ready() && WellFormed(st) && KingBoard(st) != 0
    ensures KingInCheck(attacks, st) == Success(AttackedBy(st, LowestSquare(KingBoard(st)), Opponent(st.sideToMove)))
  {
    SquareAttackedMeaning(attacks, st, LowestSquare(KingBoard(st)), Opponent(st.sideToMove));
  }
}
