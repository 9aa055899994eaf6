/**
 * Pseudo-legal move generation (main.cpp: generateMoves with its helpers
 * PickNameYourself1 for knights, bishops, rooks, queens and kings, and
 * SmthAboutPawns for pawns).
 *
 * The moves of a position are defined here on ray-cast attack sets, not on
 * the attack tables: the generator's output is proved equal to that
 * definition for a table the AttackTable constructor has filled, and the
 * soundness facts (no own-occupied target, capture flag exactly on an
 * opponent piece, promotions only from the seventh rank, castling only
 * through empty and unattacked squares) are proved about the definition.
 * Each piece board is scanned lowest square first, as the engine pops bits.
 */
module MoveGeneration {
  import opened Wrappers
  import opened Bitboards
  import opened Geometry
  import opened MoveEncoding
  import opened MoveLists
  import opened AttackTables
  import opened BoardStates

  // ---------------------------------------------------------------------
  // Scanning order
  // ---------------------------------------------------------------------

  /** A square index. */
  type Square = s: int | 0 <= s < 64

  /** The squares k >= from of a set in ascending order: the order in which popping the lowest bit visits them. */
  function Ascending(squares: set<int>, from: int): (r: seq<Square>)
    requires 0 <= from <= 64
    decreases 64 - from
  {
    if from == 64 then []
    else if from in squares then [from] + Ascending(squares, from + 1)
    else Ascending(squares, from + 1)
  }

  /** Exactly the squares of the set from `from` upwards are listed. */
  lemma {:induction false} AscendingMembers(squares: set<int>, from: int, x: int)
    requires 0 <= from <= 64
    ensures x in Ascending(squares, from) <==> from <= x < 64 && x in squares
    decreases 64 - from
  {
    if from < 64 {
      AscendingMembers(squares, from + 1, x);
    }
  }

  /** Two sets that agree from `from` upwards list the same squares. */
  lemma {:induction false} AscendingAgree(squares: set<int>, other: set<int>, from: int)
    requires 0 <= from <= 64
    requires forall k :: from <= k < 64 ==> (k in squares <==> k in other)
    ensures Ascending(squares, from) == Ascending(other, from)
    decreases 64 - from
  {
    if from < 64 {
      AscendingAgree(squares, other, from + 1);
    }
  }

  /** The least member m of the set at or above `from` comes first, followed by the rest. */
  lemma {:induction false} AscendingFirst(squares: set<int>, m: int, from: int)
    requires 0 <= from <= m < 64 && m in squares
    requires forall k :: from <= k < m ==> k !in squares
    ensures Ascending(squares, from) == [m] + Ascending(squares - {m}, from)
    decreases m - from
  {
    if from == m {
      AscendingAgree(squares, squares - {m}, m + 1);
    } else {
      AscendingFirst(squares, m, from + 1);
    }
  }

  /** Popping the lowest bit of a board takes the first square off its ascending list. */
  lemma AscendingPop(b: Bitboard)
    requires b != 0
    ensures Ascending(Squares(b), 0) == [LowestSquare(b)] + Ascending(Squares(PopBit(b, LowestSquare(b))), 0)
  {
    var m := LowestSquare(b);
    AscendingFirst(Squares(b), m, 0);
    assert Squares(b) - {m} == Squares(PopBit(b, m));
  }

  /** An empty board lists no square. */
  lemma AscendingZero()
    ensures Ascending(Squares(0), 0) == []
  {
    SquaresZero();
    AscendingAgree(Squares(0), {}, 0);
    AscendingEmpty(0);
  }

  lemma {:induction false} AscendingEmpty(from: int)
    requires 0 <= from <= 64
    ensures Ascending({}, from) == []
    decreases 64 - from
  {
    if from < 64 {
      AscendingEmpty(from + 1);
    }
  }

  // ---------------------------------------------------------------------
  // Pieces and ranks
  // ---------------------------------------------------------------------

  /** The colour of a piece: white for 0 .. 5, black for 6 .. 11. */
  function SideOf(piece: int): int
  {
    if piece < 6 then WHITE else BLACK
  }

  /** The kind of a piece, pawn .. king. */
  function KindOf(piece: int): int
  {
    if piece < 6 then piece else piece - 6
  }

  /** How a pawn of `side` moves forward: towards rank 8 (lower indices) for white. */
  function Forward(side: int): int
  {
    if side == WHITE then -8 else 8
  }

  /** The rank a pawn of `side` promotes from: a7 .. h7 for white, a2 .. h2 for black. */
  predicate OnSeventh(side: int, s: int)
  {
    if side == WHITE then A7 <= s <= H7 else A2 <= s <= H2
  }

  /** The rank a pawn of `side` may push two squares from: a2 .. h2 for white, a7 .. h7 for black. */
  predicate OnSecond(side: int, s: int)
  {
    if side == WHITE then A2 <= s <= H2 else A7 <= s <= H7
  }

  // ---------------------------------------------------------------------
  // Knights, bishops, rooks, queens and kings
  // ---------------------------------------------------------------------

  /** The quiet move or the capture onto each target, in order; the capture flag is set when an opponent piece stands there. */
  function TargetMoves(start: int, piece: int, targets: seq<Square>, opponents: set<int>): (r: seq<Move>)
    requires 0 <= start < 64 && 0 <= piece < 12
    ensures |r| == |targets|
  {
    if targets == [] then []
    else [CreateMove(start, targets[0], piece, 0, targets[0] in opponents, false, false, false)] +
         TargetMoves(start, piece, targets[1..], opponents)
  }

  /** The squares a piece may move to: what it attacks, less the squares of its own side. */
  function PieceTargets(st: BoardState, piece: int, start: int): set<int>
    requires WellFormed(st) && 0 <= piece < 12
  {
    PieceAttacks(SideOf(piece), KindOf(piece), start, Squares(st.occupancies[BOTH])) -
      Squares(st.occupancies[SideOf(piece)])
  }

  /** The moves of a non-pawn piece from each start in turn. */
  function PieceMovesOf(st: BoardState, piece: int, starts: seq<Square>): seq<Move>
    requires WellFormed(st) && 0 <= piece < 12
  {
    if starts == [] then []
    else TargetMoves(starts[0], piece, Ascending(PieceTargets(st, piece, starts[0]), 0),
                     Squares(st.occupancies[Opponent(SideOf(piece))])) +
         PieceMovesOf(st, piece, starts[1..])
  }

  /** The moves of every piece on a non-pawn board, lowest start square first. */
  function BoardMoves(st: BoardState, piece: int): seq<Move>
    requires WellFormed(st) && 0 <= piece < 12
  {
    PieceMovesOf(st, piece, Ascending(Squares(st.bitboards[piece]), 0))
  }

  // ---------------------------------------------------------------------
  // Pawns
  // ---------------------------------------------------------------------

  /** One move per promoted piece from `promoted` up to `last`, in that order. */
  function PromotionsFrom(start: int, target: int, piece: int, promoted: int, last: int, capture: bool): (r: seq<Move>)
    requires 0 <= start < 64 && 0 <= target < 64 && 0 <= piece < 12 && 0 <= promoted && last < 12
    ensures |r| == if promoted > last then 0 else last + 1 - promoted
    decreases last + 1 - promoted
  {
    if promoted > last then []
    else [CreateMove(start, target, piece, promoted, capture, false, false, false)] +
         PromotionsFrom(start, target, piece, promoted + 1, last, capture)
  }

  /** The four promotions of a pawn of `side`, knight first and queen last. */
  function Promotions(side: int, start: int, target: int, capture: bool): seq<Move>
    requires 0 <= start < 64 && 0 <= target < 64
  {
    PromotionsFrom(start, target, PieceOf(side, PAWN), PieceOf(side, KNIGHT), PieceOf(side, QUEEN), capture)
  }

  /** A pawn's move onto one target: four promotions from the seventh rank, one move otherwise. */
  function PawnStep(side: int, start: int, target: int, capture: bool): seq<Move>
    requires 0 <= start < 64 && 0 <= target < 64
  {
    if OnSeventh(side, start) then Promotions(side, start, target, capture)
    else [CreateMove(start, target, PieceOf(side, PAWN), 0, capture, false, false, false)]
  }

  /**
   * The quiet pawn moves: none when the square ahead is off the board or
   * occupied; promotions from the seventh rank; otherwise the single push,
   * followed by the double push from the second rank when that square is empty too.
   */
  function PawnPushes(st: BoardState, side: int, start: int): seq<Move>
    requires WellFormed(st) && (side == WHITE || side == BLACK) && 0 <= start < 64
  {
    var target := start + Forward(side);
    var occupied := Squares(st.occupancies[BOTH]);
    if (side == WHITE && target < A8) || (side == BLACK && target > H1) then []
    else if target in occupied then []
    else if OnSeventh(side, start) then Promotions(side, start, target, false)
    else [CreateMove(start, target, PieceOf(side, PAWN), 0, false, false, false, false)] +
         (if OnSecond(side, start) && target + Forward(side) !in occupied
          then [CreateMove(start, target + Forward(side), PieceOf(side, PAWN), 0, false, true, false, false)]
          else [])
  }

  /** The pawn captures onto each target in turn. */
  function PawnCapturesOf(side: int, start: int, targets: seq<Square>): seq<Move>
    requires 0 <= start < 64
  {
    if targets == [] then []
    else PawnStep(side, start, targets[0], true) + PawnCapturesOf(side, start, targets[1..])
  }

  /** The squares a pawn attacks that hold an opponent piece. */
  function PawnTargets(st: BoardState, side: int, start: int): set<int>
    requires WellFormed(st) && (side == WHITE || side == BLACK)
  {
    PawnAttackSet(side, start) * Squares(st.occupancies[Opponent(side)])
  }

  /** The en-passant capture, when the en-passant square is one the pawn attacks. */
  function PawnEnPassant(st: BoardState, side: int, start: int): seq<Move>
    requires WellFormed(st) && (side == WHITE || side == BLACK) && 0 <= start < 64
  {
    var ep := st.enPassantSquareIndex;
    if ep != NO_SQUARE_INDEX && ep in PawnAttackSet(side, start)
    then [CreateMove(start, ep, PieceOf(side, PAWN), 0, true, false, true, false)]
    else []
  }

  /** The moves of one pawn: pushes, then captures, then en passant. */
  function PawnMovesFrom(st: BoardState, side: int, start: int): seq<Move>
    requires WellFormed(st) && (side == WHITE || side == BLACK) && 0 <= start < 64
  {
    PawnPushes(st, side, start) + PawnCapturesOf(side, start, Ascending(PawnTargets(st, side, start), 0)) +
    PawnEnPassant(st, side, start)
  }

  /** The moves of the pawns on each start in turn. */
  function PawnMovesOf(st: BoardState, side: int, starts: seq<Square>): seq<Move>
    requires WellFormed(st) && (side == WHITE || side == BLACK)
  {
    if starts == [] then [] else PawnMovesFrom(st, side, starts[0]) + PawnMovesOf(st, side, starts[1..])
  }

  // ---------------------------------------------------------------------
  // Castling
  // ---------------------------------------------------------------------

  /** The king-side castle: the right is held, f and g are empty, and neither e nor f is attacked. */
  ghost function CastleKingSide(st: BoardState): seq<Move>
    requires WellFormed(st)
  {
    var white := st.sideToMove == WHITE;
    var right, e, f, g := if white then CASTLE_K else CASTLE_k, if white then E1 else E8,
                          if white then F1 else F8, if white then G1 else G8;
    var occupied := Squares(st.occupancies[BOTH]);
    var enemy := Opponent(st.sideToMove);
    if st.canCastle & right != 0 && f !in occupied && g !in occupied &&
       !AttackedBy(st, e, enemy) && !AttackedBy(st, f, enemy)
    then [CreateMove(e, g, PieceOf(st.sideToMove, KING), 0, false, false, false, true)]
    else []
  }

  /** The queen-side castle: the right is held, d, c and b are empty, and neither e nor d is attacked. */
  ghost function CastleQueenSide(st: BoardState): seq<Move>
    requires WellFormed(st)
  {
    var white := st.sideToMove == WHITE;
    var right, e, d, c, b := if white then CASTLE_Q else CASTLE_q, if white then E1 else E8,
                             if white then D1 else D8, if white then C1 else C8, if white then B1 else B8;
    var occupied := Squares(st.occupancies[BOTH]);
    var enemy := Opponent(st.sideToMove);
    if st.canCastle & right != 0 && d !in occupied && c !in occupied && b !in occupied &&
       !AttackedBy(st, e, enemy) && !AttackedBy(st, d, enemy)
    then [CreateMove(e, c, PieceOf(st.sideToMove, KING), 0, false, false, false, true)]
    else []
  }

  // ---------------------------------------------------------------------
  // The whole position
  // ---------------------------------------------------------------------

  /**
   * The moves generateMoves emits while it visits one piece board: none for
   * the other side's pieces; all pawn moves for the pawns; the castles
   * before the king's own moves.
   */
  ghost function Section(st: BoardState, piece: int): seq<Move>
    requires WellFormed(st) && 0 <= piece < 12
  {
    if SideOf(piece) != st.sideToMove then []
    else if KindOf(piece) == PAWN then PawnMovesOf(st, st.sideToMove, Ascending(Squares(st.bitboards[piece]), 0))
    else if KindOf(piece) == KING then CastleKingSide(st) + CastleQueenSide(st) + BoardMoves(st, piece)
    else BoardMoves(st, piece)
  }

  /** The sections of pieces 0 .. n-1, in that order. */
  ghost function SectionsBelow(st: BoardState, n: int): seq<Move>
    requires WellFormed(st) && 0 <= n <= 12
  {
    if n == 0 then [] else SectionsBelow(st, n - 1) + Section(st, n - 1)
  }

  /** The move list generateMoves returns for a position. */
  ghost function Generated(st: BoardState): seq<Move>
    requires WellFormed(st)
  {
    SectionsBelow(st, 12)
  }

  /** The sections below n are a prefix of those below m >= n, so fewer moves. */
  lemma {:induction false} SectionsGrow(st: BoardState, n: int, m: int)
    requires WellFormed(st) && 0 <= n <= m <= 12
    ensures |SectionsBelow(st, n)| <= |SectionsBelow(st, m)|
    decreases m - n
  {
    if n < m {
      SectionsGrow(st, n, m - 1);
    }
  }

  // ---------------------------------------------------------------------
  // The generator
  // ---------------------------------------------------------------------

  /** The attack lookup each PickNameYourself1 call passes in, for knights .. kings. */
  function PieceLookup(attacks: AttackTable, kind: int, start: int, occupancy: Bitboard): Bitboard
    requires attacks.Valid() && 0 <= start < 64
    reads attacks.pawnAttacks, attacks.knightAttacks, attacks.kingAttacks, attacks.bishopAttacks, attacks.rookAttacks, attacks.bishopMasks, attacks.rookMasks, attacks.bishopMagics, attacks.rookMagics
  {
    if kind == KNIGHT then attacks.GetKnightAttacks(start)
    else if kind == BISHOP then attacks.GetBishopAttacks(start, occupancy)
    else if kind == ROOK then attacks.GetRookAttacks(start, occupancy)
    else if kind == QUEEN then attacks.GetQueenAttacks(start, occupancy)
    else attacks.GetKingAttacks(start)
  }

  /** A ready table's lookup for a knight .. king holds the squares that piece attacks. */
  lemma PieceLookupMeaning(attacks: AttackTable, side: int, kind: int, start: int, occupancy: Bitboard)
    requires attacks.Ready() && (side == WHITE || side == BLACK) && KNIGHT <= kind <= KING && 0 <= start < 64
    ensures Squares(PieceLookup(attacks, kind, start, occupancy)) == PieceAttacks(side, kind, start, Squares(occupancy))
  {
    attacks.LeaperLookup(side, start);
    if kind == BISHOP {
      attacks.BishopLookup(start, occupancy);
    } else if kind == ROOK {
      attacks.RookLookup(start, occupancy);
    } else if kind == QUEEN {
      attacks.QueenLookup(start, occupancy);
    }
  }

  /** `lookup & ~own` holds the looked-up squares that are not the mover's own. */
  lemma MaskOut(lookup: Bitboard, own: Bitboard)
    ensures Squares(lookup & !own) == Squares(lookup) - Squares(own)
  {
    SquaresAnd(lookup, !own);
    SquaresNot(own);
    SquaresBounded(lookup);
    Without(Squares(lookup), Squares(!own), Squares(own), Squares(lookup & !own));
  }

  lemma Without(looked: set<int>, free: set<int>, own: set<int>, kept: set<int>)
    requires kept == looked * free && free == Below(64) - own && looked <= Below(64)
    ensures kept == looked - own
  {
  }

  /** Appending one element, then the rest, is appending both. */
  lemma AppendShift<T>(before: seq<T>, x: T, tail: seq<T>, all: seq<T>)
    requires before + ([x] + tail) == all
    ensures (before + [x]) + tail == all
  {
    assert (before + [x]) + tail == before + ([x] + tail);
  }

  /** Appending two parts in turn. */
  lemma AppendParts<T>(before: seq<T>, x: seq<T>, tail: seq<T>, all: seq<T>)
    requires before + (x + tail) == all
    ensures (before + x) + tail == all
  {
    assert (before + x) + tail == before + (x + tail);
  }

  /** Where a whole fits, each of its leading parts fits. */
  lemma RoomFor<T>(before: seq<T>, part: seq<T>, rest: seq<T>, whole: seq<T>, room: int)
    requires whole == part + rest && |before| + |whole| <= room
    ensures |before| + |part| <= room
  {
  }

  /** Every knight .. king lookup of the table holds the squares that piece of the side to move attacks. */
  ghost predicate LookupsSound(attacks: AttackTable, st: BoardState)
    requires attacks.Valid() && WellFormed(st)
    reads attacks.pawnAttacks, attacks.knightAttacks, attacks.kingAttacks, attacks.bishopAttacks, attacks.rookAttacks, attacks.bishopMasks, attacks.rookMasks, attacks.bishopMagics, attacks.rookMagics
  {
    forall kind, s {:trigger PieceLookup(attacks, kind, s, st.occupancies[BOTH])} :: KNIGHT <= kind <= KING && 0 <= s < 64 ==>
      Squares(PieceLookup(attacks, kind, s, st.occupancies[BOTH])) == PieceAttacks(st.sideToMove, kind, s, Squares(st.occupancies[BOTH]))
  }

  /** A table the constructor has filled answers every lookup soundly. */
  lemma ReadyLookups(attacks: AttackTable, st: BoardState)
    requires attacks.Ready() && WellFormed(st)
    ensures LookupsSound(attacks, st)
  {
    forall kind, s | KNIGHT <= kind <= KING && 0 <= s < 64
      ensures Squares(PieceLookup(attacks, kind, s, st.occupancies[BOTH])) == PieceAttacks(st.sideToMove, kind, s, Squares(st.occupancies[BOTH]))
    {
      PieceLookupMeaning(attacks, st.sideToMove, kind, s, st.occupancies[BOTH]);
    }
  }

  /** What PickNameYourself1 scans from a start square, the lookup less the own pieces, is PieceTargets. */
  lemma LookupTargets(attacks: AttackTable, st: BoardState, piece: int, start: int)
    requires attacks.Valid() && WellFormed(st) && LookupsSound(attacks, st)
    requires 0 <= piece < 12 && KindOf(piece) != PAWN && SideOf(piece) == st.sideToMove && 0 <= start < 64
    ensures Squares(PieceLookup(attacks, KindOf(piece), start, st.occupancies[BOTH]) & !st.occupancies[st.sideToMove]) ==
            PieceTargets(st, piece, start)
  {
    var lookup, own := PieceLookup(attacks, KindOf(piece), start, st.occupancies[BOTH]), st.occupancies[st.sideToMove];
    MaskOut(lookup, own);
    var attacked := PieceAttacks(st.sideToMove, KindOf(piece), start, Squares(st.occupancies[BOTH]));
    assert Squares(lookup) == attacked;
    Substitute(Squares(lookup & !own), Squares(lookup), attacked, Squares(own));
  }

  lemma Substitute(kept: set<int>, looked: set<int>, attacked: set<int>, own: set<int>)
    requires kept == looked - own && looked == attacked
    ensures kept == attacked - own
  {
  }


  /** The first target popped off a board gives the first move. */
  lemma TargetMovesPop(start: int, piece: int, b: Bitboard, opponents: set<int>)
    requires 0 <= start < 64 && 0 <= piece < 12 && b != 0
    ensures var t := LowestSquare(b);
      TargetMoves(start, piece, Ascending(Squares(b), 0), opponents) ==
        [CreateMove(start, t, piece, 0, t in opponents, false, false, false)] +
        TargetMoves(start, piece, Ascending(Squares(PopBit(b, t)), 0), opponents)
    ensures PopCount(PopBit(b, LowestSquare(b))) < PopCount(b)
  {
    AscendingPop(b);
  }

  /** The inner loop of PickNameYourself1: one move per target, lowest first, flagged as a capture when an opponent piece is there. */
  method AppendTargets(list: MoveList, start: int, piece: int, targets: Bitboard, opponents: Bitboard)
    requires list.Valid() && 0 <= start < 64 && 0 <= piece < 12
    requires |list.Contents()| + |Ascending(Squares(targets), 0)| <= CAPACITY
    modifies list, list.moves
    ensures list.Valid()
    ensures list.Contents() == old(list.Contents()) + TargetMoves(start, piece, Ascending(Squares(targets), 0), Squares(opponents))
  {
    var currentPieceAttacks := targets;
    while currentPieceAttacks != 0
      invariant list.Valid()
      invariant list.Contents() + TargetMoves(start, piece, Ascending(Squares(currentPieceAttacks), 0), Squares(opponents)) ==
                old(list.Contents()) + TargetMoves(start, piece, Ascending(Squares(targets), 0), Squares(opponents))
      decreases PopCount(currentPieceAttacks)
    {
      var lowest := GetLS1BIndex(currentPieceAttacks);
      var targetSquareIndex := lowest.value;
      ghost var before := list.Contents();
      ghost var rest := Ascending(Squares(PopBit(currentPieceAttacks, targetSquareIndex)), 0);
      ghost var move := CreateMove(start, targetSquareIndex, piece, 0, targetSquareIndex in Squares(opponents), false, false, false);
      TargetMovesPop(start, piece, currentPieceAttacks, Squares(opponents));
      if GetBit(opponents, targetSquareIndex) == 0 {
        list.AppendMove(start, targetSquareIndex, piece, 0, false, false, false, false);
      } else {
        list.AppendMove(start, targetSquareIndex, piece, 0, true, false, false, false);
      }
      AppendShift(before, move, TargetMoves(start, piece, rest, Squares(opponents)),
                  old(list.Contents()) + TargetMoves(start, piece, Ascending(Squares(targets), 0), Squares(opponents)));
      currentPieceAttacks := PopBit(currentPieceAttacks, targetSquareIndex);
    }
    AscendingZero();
  }

  /** The first start popped off a board contributes its moves first. */
  lemma PieceMovesPop(st: BoardState, piece: int, b: Bitboard)
    requires WellFormed(st) && 0 <= piece < 12 && b != 0
    ensures var s := LowestSquare(b);
      PieceMovesOf(st, piece, Ascending(Squares(b), 0)) ==
        TargetMoves(s, piece, Ascending(PieceTargets(st, piece, s), 0), Squares(st.occupancies[Opponent(SideOf(piece))])) +
        PieceMovesOf(st, piece, Ascending(Squares(PopBit(b, s)), 0))
    ensures PopCount(PopBit(b, LowestSquare(b))) < PopCount(b)
  {
    AscendingPop(b);
  }

  /** The squares PickNameYourself1 scans from `start`: the table's lookup less the mover's own pieces. */
  method LookupMoveTargets(attacks: AttackTable, st: BoardState, piece: int, start: int) returns (targets: Bitboard)
    requires attacks.Valid() && WellFormed(st) && LookupsSound(attacks, st)
    requires 0 <= piece < 12 && KindOf(piece) != PAWN && SideOf(piece) == st.sideToMove && 0 <= start < 64
    ensures Squares(targets) == PieceTargets(st, piece, start)
  {
    targets := PieceLookup(attacks, KindOf(piece), start, st.occupancies[BOTH]) & !st.occupancies[st.sideToMove];
    LookupTargets(attacks, st, piece, start);
  }

  /**
   * Emitting the moves to `targets` from the lowest start, then the moves
   * of the other starts, emits the moves of the whole board, and fits
   * wherever the whole board fits.
   */
  lemma StepPlan(st: BoardState, piece: int, board: Bitboard, targets: Bitboard, before: seq<Move>)
    requires WellFormed(st) && 0 <= piece < 12 && board != 0
    requires Squares(targets) == PieceTargets(st, piece, LowestSquare(board))
    requires |before| + |PieceMovesOf(st, piece, Ascending(Squares(board), 0))| <= CAPACITY
    ensures var moves := TargetMoves(LowestSquare(board), piece, Ascending(Squares(targets), 0), Squares(st.occupancies[Opponent(SideOf(piece))]));
      |before| + |moves| <= CAPACITY &&
      (before + moves) + PieceMovesOf(st, piece, Ascending(Squares(PopBit(board, LowestSquare(board))), 0)) ==
        before + PieceMovesOf(st, piece, Ascending(Squares(board), 0))
    ensures PopCount(PopBit(board, LowestSquare(board))) < PopCount(board)
  {
    PieceMovesPop(st, piece, board);
    var s := LowestSquare(board);
    var moves := TargetMoves(s, piece, Ascending(Squares(targets), 0), Squares(st.occupancies[Opponent(SideOf(piece))]));
    var rest := PieceMovesOf(st, piece, Ascending(Squares(PopBit(board, s)), 0));
    AppendParts(before, moves, rest, before + PieceMovesOf(st, piece, Ascending(Squares(board), 0)));
  }

  /**
   * One pass of PickNameYourself1's outer loop: the lowest piece on the
   * board emits its moves, and the board without it is what is left.
   */
  method PieceMovesStep(attacks: AttackTable, st: BoardState, list: MoveList, currentPiece: int, board: Bitboard) returns (next: Bitboard)
    requires attacks.Valid() && WellFormed(st) && LookupsSound(attacks, st) && list.Valid()
    requires 0 <= currentPiece < 12 && KindOf(currentPiece) != PAWN && SideOf(currentPiece) == st.sideToMove && board != 0
    requires |list.Contents()| + |PieceMovesOf(st, currentPiece, Ascending(Squares(board), 0))| <= CAPACITY
    modifies list, list.moves
    ensures list.Valid() && PopCount(next) < PopCount(board)
    ensures list.Contents() + PieceMovesOf(st, currentPiece, Ascending(Squares(next), 0)) ==
            old(list.Contents()) + PieceMovesOf(st, currentPiece, Ascending(Squares(board), 0))
  {
    var lowest := GetLS1BIndex(board);
    var startSquareIndex := lowest.value;
    var currentPieceAttacks := LookupMoveTargets(attacks, st, currentPiece, startSquareIndex);
    StepPlan(st, currentPiece, board, currentPieceAttacks, list.Contents());
    AppendTargets(list, startSquareIndex, currentPiece, currentPieceAttacks, st.occupancies[Opponent(st.sideToMove)]);
    next := PopBit(board, startSquareIndex);
  }

  /** The loop of PickNameYourself1 over a board of the mover's pieces: each piece's moves, lowest start first. */
  method BoardPieceMoves(attacks: AttackTable, st: BoardState, list: MoveList, currentPiece: int)
    requires attacks.Valid() && WellFormed(st) && LookupsSound(attacks, st) && list.Valid()
    requires 0 <= currentPiece < 12 && KindOf(currentPiece) != PAWN && SideOf(currentPiece) == st.sideToMove
    requires |list.Contents()| + |BoardMoves(st, currentPiece)| <= CAPACITY
    modifies list, list.moves
    ensures list.Valid() && LookupsSound(attacks, st)
    ensures list.Contents() == old(list.Contents()) + BoardMoves(st, currentPiece)
  {
    var currentPieceBitboard := st.bitboards[currentPiece];
    while currentPieceBitboard != 0
      invariant list.Valid() && LookupsSound(attacks, st)
      invariant list.Contents() + PieceMovesOf(st, currentPiece, Ascending(Squares(currentPieceBitboard), 0)) ==
                old(list.Contents()) + BoardMoves(st, currentPiece)
      decreases PopCount(currentPieceBitboard)
    {
      currentPieceBitboard := PieceMovesStep(attacks, st, list, currentPiece, currentPieceBitboard);
    }
    AscendingZero();
  }

  /**
   * PickNameYourself1: when the visited piece is the mover's piece of this
   * kind, every piece on its board emits one move per attacked square not
   * held by its own side, lowest start and lowest target first; otherwise
   * nothing is emitted.
   */
  method PieceMoves(attacks: AttackTable, st: BoardState, list: MoveList, currentPiece: int, whitePiece: int, blackPiece: int)
    requires attacks.Valid() && WellFormed(st) && LookupsSound(attacks, st) && list.Valid()
    requires 0 <= currentPiece < 12 && KNIGHT <= whitePiece <= KING && blackPiece == whitePiece + 6
    requires var picked := if st.sideToMove == WHITE then currentPiece == whitePiece else currentPiece == blackPiece;
      |list.Contents()| + |if picked then BoardMoves(st, currentPiece) else []| <= CAPACITY
    modifies list, list.moves
    ensures list.Valid() && LookupsSound(attacks, st)
    ensures var picked := if st.sideToMove == WHITE then currentPiece == whitePiece else currentPiece == blackPiece;
      if picked then list.Contents() == old(list.Contents()) + BoardMoves(st, currentPiece) else list.Contents() == old(list.Contents())
  {
    if (if st.sideToMove == WHITE then currentPiece == whitePiece else currentPiece == blackPiece) {
      BoardPieceMoves(attacks, st, list, currentPiece);
    }
  }

  // ---------------------------------------------------------------------
  // SmthAboutPawns
  // ---------------------------------------------------------------------

  /** Every pawn lookup of the table for `side` holds the squares such a pawn attacks. */
  ghost predicate PawnLookupsSound(attacks: AttackTable, side: int)
    requires attacks.Valid() && (side == WHITE || side == BLACK)
    reads attacks.pawnAttacks
  {
    forall s {:trigger attacks.GetPawnAttacks(side, s)} :: 0 <= s < 64 ==> Squares(attacks.GetPawnAttacks(side, s)) == PawnAttackSet(side, s)
  }

  /** A table the constructor has filled answers every pawn lookup soundly. */
  lemma ReadyPawnLookups(attacks: AttackTable, side: int)
    requires attacks.Ready() && (side == WHITE || side == BLACK)
    ensures PawnLookupsSound(attacks, side)
  {
    forall s | 0 <= s < 64
      ensures Squares(attacks.GetPawnAttacks(side, s)) == PawnAttackSet(side, s)
    {
      attacks.LeaperLookup(side, s);
    }
  }

  /** The promotion loop: one move per piece from the side's knight up to its queen. */
  method AppendPromotions(list: MoveList, side: int, start: int, target: int, capture: bool)
    requires list.Valid() && (side == WHITE || side == BLACK) && 0 <= start < 64 && 0 <= target < 64
    requires |list.Contents()| + 4 <= CAPACITY
    modifies list, list.moves
    ensures list.Valid()
    ensures list.Contents() == old(list.Contents()) + Promotions(side, start, target, capture)
  {
    var thisKnight, thisQueen := PieceOf(side, KNIGHT), PieceOf(side, QUEEN);
    var pawn := PieceOf(side, PAWN);
    for promotedPiece := thisKnight to thisQueen + 1
      invariant list.Valid() && |list.Contents()| == |old(list.Contents())| + promotedPiece - thisKnight
      invariant list.Contents() + PromotionsFrom(start, target, pawn, promotedPiece, thisQueen, capture) ==
                old(list.Contents()) + Promotions(side, start, target, capture)
    {
      ghost var before := list.Contents();
      list.AppendMove(start, target, pawn, promotedPiece, capture, false, false, false);
      AppendShift(before, CreateMove(start, target, pawn, promotedPiece, capture, false, false, false),
                  PromotionsFrom(start, target, pawn, promotedPiece + 1, thisQueen, capture),
                  old(list.Contents()) + Promotions(side, start, target, capture));
    }
  }

  /** The quiet moves of one pawn. */
  method AppendPawnPushes(st: BoardState, list: MoveList, side: int, start: int)
    requires WellFormed(st) && list.Valid() && (side == WHITE || side == BLACK) && 0 <= start < 64
    requires |list.Contents()| + |PawnPushes(st, side, start)| <= CAPACITY
    modifies list, list.moves
    ensures list.Valid()
    ensures list.Contents() == old(list.Contents()) + PawnPushes(st, side, start)
  {
    var indexShift := Forward(side);
    var targetSquareIndex := start + indexShift;
    var offBoard := if side == WHITE then targetSquareIndex < A8 else targetSquareIndex > H1;
    if !offBoard && GetBit(st.occupancies[BOTH], targetSquareIndex) == 0 {
      if OnSeventh(side, start) {
        AppendPromotions(list, side, start, targetSquareIndex, false);
      } else {
        list.AppendMove(start, targetSquareIndex, PieceOf(side, PAWN), 0, false, false, false, false);
        if OnSecond(side, start) && GetBit(st.occupancies[BOTH], targetSquareIndex + indexShift) == 0 {
          list.AppendMove(start, targetSquareIndex + indexShift, PieceOf(side, PAWN), 0, false, true, false, false);
        }
      }
    }
  }

  /** One pawn move onto a target: the four promotions from the seventh rank, a single move otherwise. */
  method AppendPawnStep(list: MoveList, side: int, start: int, target: int, capture: bool)
    requires list.Valid() && (side == WHITE || side == BLACK) && 0 <= start < 64 && 0 <= target < 64
    requires |list.Contents()| + |PawnStep(side, start, target, capture)| <= CAPACITY
    modifies list, list.moves
    ensures list.Valid()
    ensures list.Contents() == old(list.Contents()) + PawnStep(side, start, target, capture)
  {
    if OnSeventh(side, start) {
      AppendPromotions(list, side, start, target, capture);
    } else {
      list.AppendMove(start, target, PieceOf(side, PAWN), 0, capture, false, false, false);
    }
  }

  /** The first capture target popped off a board gives the first capture moves. */
  lemma PawnCapturesPop(side: int, start: int, b: Bitboard)
    requires 0 <= start < 64 && b != 0
    ensures var t := LowestSquare(b);
      PawnCapturesOf(side, start, Ascending(Squares(b), 0)) ==
        PawnStep(side, start, t, true) + PawnCapturesOf(side, start, Ascending(Squares(PopBit(b, t)), 0))
    ensures PopCount(PopBit(b, LowestSquare(b))) < PopCount(b)
  {
    AscendingPop(b);
  }

  /** The capture loop of SmthAboutPawns: each attacked opponent square in turn, lowest first. */
  method AppendPawnCaptures(list: MoveList, side: int, start: int, targets: Bitboard)
    requires list.Valid() && (side == WHITE || side == BLACK) && 0 <= start < 64
    requires |list.Contents()| + |PawnCapturesOf(side, start, Ascending(Squares(targets), 0))| <= CAPACITY
    modifies list, list.moves
    ensures list.Valid()
    ensures list.Contents() == old(list.Contents()) + PawnCapturesOf(side, start, Ascending(Squares(targets), 0))
  {
    var currentPieceAttacks := targets;
    while currentPieceAttacks != 0
      invariant list.Valid()
      invariant list.Contents() + PawnCapturesOf(side, start, Ascending(Squares(currentPieceAttacks), 0)) ==
                old(list.Contents()) + PawnCapturesOf(side, start, Ascending(Squares(targets), 0))
      decreases PopCount(currentPieceAttacks)
    {
      var lowest := GetLS1BIndex(currentPieceAttacks);
      var targetSquareIndex := lowest.value;
      ghost var before := list.Contents();
      ghost var step := PawnStep(side, start, targetSquareIndex, true);
      ghost var rest := PawnCapturesOf(side, start, Ascending(Squares(PopBit(currentPieceAttacks, targetSquareIndex)), 0));
      PawnCapturesPop(side, start, currentPieceAttacks);
      RoomFor(before, step, rest, PawnCapturesOf(side, start, Ascending(Squares(currentPieceAttacks), 0)), CAPACITY);
      AppendPawnStep(list, side, start, targetSquareIndex, true);
      AppendParts(before, step, rest, old(list.Contents()) + PawnCapturesOf(side, start, Ascending(Squares(targets), 0)));
      currentPieceAttacks := PopBit(currentPieceAttacks, targetSquareIndex);
    }
    AscendingZero();
  }

  /** The attacked squares holding an opponent piece, as SmthAboutPawns looks them up. */
  method PawnCaptureTargets(attacks: AttackTable, st: BoardState, side: int, start: int) returns (targets: Bitboard)
    requires attacks.Valid() && WellFormed(st) && (side == WHITE || side == BLACK) && PawnLookupsSound(attacks, side) && 0 <= start < 64
    ensures Squares(targets) == PawnTargets(st, side, start)
  {
    targets := attacks.GetPawnAttacks(side, start) & st.occupancies[Opponent(side)];
    SquaresAnd(attacks.GetPawnAttacks(side, start), st.occupancies[Opponent(side)]);
  }

  /** A board whose squares are a set met with one square is empty exactly when the set misses that square. */
  lemma MeetSingle(b: Bitboard, attacked: set<int>, e: int)
    requires Squares(b) == attacked * {e}
    ensures (b != 0) == (e in attacked)
    ensures b != 0 ==> LowestSquare(b) == e
  {
    ZeroIsEmpty(b);
    if e in attacked {
      assert e in Squares(b);
    }
  }

  /** The pawn's attacks met with the en-passant square: not empty exactly when the pawn attacks that square. */
  method EnPassantAttacks(attacks: AttackTable, side: int, start: int, ep: int) returns (b: Bitboard)
    requires attacks.Valid() && (side == WHITE || side == BLACK) && PawnLookupsSound(attacks, side) && 0 <= start < 64 && 0 <= ep < 64
    ensures (b != 0) == (ep in PawnAttackSet(side, start))
    ensures b != 0 ==> LowestSquare(b) == ep
  {
    b := attacks.GetPawnAttacks(side, start) & SquareBit(ep);
    SquaresAnd(attacks.GetPawnAttacks(side, start), SquareBit(ep));
    SquaresSquareBit(ep);
    MeetSingle(b, PawnAttackSet(side, start), ep);
  }

  /** The en-passant square taken by the pawn when it attacks that square. */
  method AppendEnPassant(attacks: AttackTable, st: BoardState, list: MoveList, side: int, start: int)
    requires attacks.Valid() && WellFormed(st) && (side == WHITE || side == BLACK) && PawnLookupsSound(attacks, side) && 0 <= start < 64
    requires list.Valid() && |list.Contents()| + |PawnEnPassant(st, side, start)| <= CAPACITY
    modifies list, list.moves
    ensures list.Valid()
    ensures list.Contents() == old(list.Contents()) + PawnEnPassant(st, side, start)
  {
    var ep := st.enPassantSquareIndex;
    if ep != NO_SQUARE_INDEX {
      var enPassantAttacks := EnPassantAttacks(attacks, side, start, ep);
      if enPassantAttacks != 0 {
        var lowest := GetLS1BIndex(enPassantAttacks);
        list.AppendMove(start, lowest.value, PieceOf(side, PAWN), 0, true, false, true, false);
      }
    }
  }

  /** Appending three parts in turn, then the rest. */
  lemma AppendThree<T>(before: seq<T>, x: seq<T>, y: seq<T>, z: seq<T>, rest: seq<T>, whole: seq<T>)
    requires whole == x + y + z + rest
    ensures (((before + x) + y) + z) + rest == before + whole
    ensures |before| + |whole| == |before| + |x| + |y| + |z| + |rest|
  {
    assert (((before + x) + y) + z) + rest == before + (x + y + z + rest);
  }

  /** The first pawn popped off a board contributes its moves first. */
  lemma PawnMovesPop(st: BoardState, side: int, b: Bitboard)
    requires WellFormed(st) && (side == WHITE || side == BLACK) && b != 0
    ensures var s := LowestSquare(b);
      PawnMovesOf(st, side, Ascending(Squares(b), 0)) ==
        PawnPushes(st, side, s) + PawnCapturesOf(side, s, Ascending(PawnTargets(st, side, s), 0)) + PawnEnPassant(st, side, s) +
        PawnMovesOf(st, side, Ascending(Squares(PopBit(b, s)), 0))
    ensures PopCount(PopBit(b, LowestSquare(b))) < PopCount(b)
  {
    AscendingPop(b);
  }

  /** One pass of SmthAboutPawns' loop: pushes, captures and en passant of the lowest pawn. */
  method PawnMovesStep(attacks: AttackTable, st: BoardState, list: MoveList, side: int, board: Bitboard) returns (next: Bitboard)
    requires attacks.Valid() && WellFormed(st) && (side == WHITE || side == BLACK) && PawnLookupsSound(attacks, side)
    requires list.Valid() && board != 0
    requires |list.Contents()| + |PawnMovesOf(st, side, Ascending(Squares(board), 0))| <= CAPACITY
    modifies list, list.moves
    ensures list.Valid() && PopCount(next) < PopCount(board)
    ensures list.Contents() + PawnMovesOf(st, side, Ascending(Squares(next), 0)) ==
            old(list.Contents()) + PawnMovesOf(st, side, Ascending(Squares(board), 0))
  {
    var lowest := GetLS1BIndex(board);
    var startSquareIndex := lowest.value;
    ghost var before := list.Contents();
    PawnMovesPop(st, side, board);
    AppendThree(before, PawnPushes(st, side, startSquareIndex),
                PawnCapturesOf(side, startSquareIndex, Ascending(PawnTargets(st, side, startSquareIndex), 0)),
                PawnEnPassant(st, side, startSquareIndex),
                PawnMovesOf(st, side, Ascending(Squares(PopBit(board, startSquareIndex)), 0)),
                PawnMovesOf(st, side, Ascending(Squares(board), 0)));
    AppendPawnPushes(st, list, side, startSquareIndex);
    var currentPieceAttacks := PawnCaptureTargets(attacks, st, side, startSquareIndex);
    AppendPawnCaptures(list, side, startSquareIndex, currentPieceAttacks);
    AppendEnPassant(attacks, st, list, side, startSquareIndex);
    next := PopBit(board, startSquareIndex);
  }

  /** SmthAboutPawns: the moves of every pawn of `side`, lowest start square first. */
  method PawnMoves(attacks: AttackTable, st: BoardState, list: MoveList, side: int)
    requires attacks.Valid() && WellFormed(st) && (side == WHITE || side == BLACK) && PawnLookupsSound(attacks, side)
    requires list.Valid()
    requires |list.Contents()| + |PawnMovesOf(st, side, Ascending(Squares(st.bitboards[PieceOf(side, PAWN)]), 0))| <= CAPACITY
    modifies list, list.moves
    ensures list.Valid()
    ensures list.Contents() == old(list.Contents()) + PawnMovesOf(st, side, Ascending(Squares(st.bitboards[PieceOf(side, PAWN)]), 0))
  {
    var currentPieceBitboard := st.bitboards[PieceOf(side, PAWN)];
    while currentPieceBitboard != 0
      invariant list.Valid() && PawnLookupsSound(attacks, side)
      invariant list.Contents() + PawnMovesOf(st, side, Ascending(Squares(currentPieceBitboard), 0)) ==
                old(list.Contents()) + PawnMovesOf(st, side, Ascending(Squares(st.bitboards[PieceOf(side, PAWN)]), 0))
      decreases PopCount(currentPieceBitboard)
    {
      currentPieceBitboard := PawnMovesStep(attacks, st, list, side, currentPieceBitboard);
    }
    AscendingZero();
  }

  // ---------------------------------------------------------------------
  // Castling and generateMoves
  // ---------------------------------------------------------------------

  /** isSquareAttacked, negated: whether no piece of `enemy` attacks the square. */
  method NotAttacked(attacks: AttackTable, st: BoardState, sq: int, enemy: int) returns (safe: bool)
    requires attacks.Ready() && WellFormed(st) && 0 <= sq < 64 && (enemy == WHITE || enemy == BLACK)
    ensures safe == !AttackedBy(st, sq, enemy)
  {
    safe := !SquareAttacked(attacks, st, sq, enemy);
    SquareAttackedMeaning(attacks, st, sq, enemy);
  }

  /** The king-side castling test of generateMoves for the side to move. */
  method AppendCastleKingSide(attacks: AttackTable, st: BoardState, list: MoveList)
    requires attacks.Ready() && WellFormed(st) && list.Valid()
    requires |list.Contents()| + |CastleKingSide(st)| <= CAPACITY
    modifies list, list.moves
    ensures list.Valid()
    ensures list.Contents() == old(list.Contents()) + CastleKingSide(st)
  {
    var white := st.sideToMove == WHITE;
    var right, e, f, g := if white then CASTLE_K else CASTLE_k, if white then E1 else E8,
                          if white then F1 else F8, if white then G1 else G8;
    var enemy := Opponent(st.sideToMove);
    if st.canCastle & right != 0 {
      if GetBit(st.occupancies[BOTH], f) == 0 && GetBit(st.occupancies[BOTH], g) == 0 {
        var eSafe := NotAttacked(attacks, st, e, enemy);
        var fSafe := NotAttacked(attacks, st, f, enemy);
        if eSafe && fSafe {
          list.AppendMove(e, g, PieceOf(st.sideToMove, KING), 0, false, false, false, true);
        }
      }
    }
  }

  /** The queen-side castling test of generateMoves for the side to move. */
  method AppendCastleQueenSide(attacks: AttackTable, st: BoardState, list: MoveList)
    requires attacks.Ready() && WellFormed(st) && list.Valid()
    requires |list.Contents()| + |CastleQueenSide(st)| <= CAPACITY
    modifies list, list.moves
    ensures list.Valid()
    ensures list.Contents() == old(list.Contents()) + CastleQueenSide(st)
  {
    var white := st.sideToMove == WHITE;
    var right, e, d, c, b := if white then CASTLE_Q else CASTLE_q, if white then E1 else E8,
                             if white then D1 else D8, if white then C1 else C8, if white then B1 else B8;
    var enemy := Opponent(st.sideToMove);
    if st.canCastle & right != 0 {
      if GetBit(st.occupancies[BOTH], d) == 0 && GetBit(st.occupancies[BOTH], c) == 0 && GetBit(st.occupancies[BOTH], b) == 0 {
        var eSafe := NotAttacked(attacks, st, e, enemy);
        var dSafe := NotAttacked(attacks, st, d, enemy);
        if eSafe && dSafe {
          list.AppendMove(e, c, PieceOf(st.sideToMove, KING), 0, false, false, false, true);
        }
      }
    }
  }

  /** What the switch of generateMoves emits: the pawn moves on the mover's pawn board, the castles on its king board. */
  ghost function SpecialPart(st: BoardState, piece: int): seq<Move>
    requires WellFormed(st) && 0 <= piece < 12
  {
    if piece == PieceOf(st.sideToMove, PAWN) then PawnMovesOf(st, st.sideToMove, Ascending(Squares(st.bitboards[piece]), 0))
    else if piece == PieceOf(st.sideToMove, KING) then CastleKingSide(st) + CastleQueenSide(st)
    else []
  }

  /** What the five PickNameYourself1 calls emit: the moves of the board when it holds the mover's knights .. king. */
  function OwnPart(st: BoardState, piece: int): seq<Move>
    requires WellFormed(st) && 0 <= piece < 12
  {
    if SideOf(piece) == st.sideToMove && KindOf(piece) != PAWN then BoardMoves(st, piece) else []
  }

  /** A section is the switch's moves followed by the PickNameYourself1 moves. */
  lemma SectionParts(st: BoardState, piece: int)
    requires WellFormed(st) && 0 <= piece < 12
    ensures Section(st, piece) == SpecialPart(st, piece) + OwnPart(st, piece)
  {
    if SideOf(piece) != st.sideToMove {
      assert piece != PieceOf(st.sideToMove, PAWN) && piece != PieceOf(st.sideToMove, KING);
    } else if KindOf(piece) == PAWN {
      assert piece == PieceOf(st.sideToMove, PAWN);
    } else if KindOf(piece) == KING {
      assert piece == PieceOf(st.sideToMove, KING);
    } else {
      assert piece != PieceOf(st.sideToMove, PAWN) && piece != PieceOf(st.sideToMove, KING);
    }
  }

  /** The switch of generateMoves: the pawn moves on the pawn board, the castles on the king board, of the side to move. */
  method SpecialMoves(attacks: AttackTable, st: BoardState, list: MoveList, currentPiece: int)
    requires attacks.Ready() && WellFormed(st) && list.Valid() && 0 <= currentPiece < 12
    requires |list.Contents()| + |SpecialPart(st, currentPiece)| <= CAPACITY
    modifies list, list.moves
    ensures list.Valid()
    ensures list.Contents() == old(list.Contents()) + SpecialPart(st, currentPiece)
  {
    if currentPiece == PieceOf(st.sideToMove, PAWN) {
      ReadyPawnLookups(attacks, st.sideToMove);
      PawnMoves(attacks, st, list, st.sideToMove);
    } else if currentPiece == PieceOf(st.sideToMove, KING) {
      ghost var before := list.Contents();
      AppendCastleKingSide(attacks, st, list);
      AppendCastleQueenSide(attacks, st, list);
      assert list.Contents() == before + (CastleKingSide(st) + CastleQueenSide(st));
    }
  }

  /** The five PickNameYourself1 calls: only the one for the visited piece's kind, if it is the mover's, emits moves. */
  method OwnPieceMoves(attacks: AttackTable, st: BoardState, list: MoveList, currentPiece: int)
    requires attacks.Valid() && WellFormed(st) && LookupsSound(attacks, st) && list.Valid() && 0 <= currentPiece < 12
    requires |list.Contents()| + |OwnPart(st, currentPiece)| <= CAPACITY
    modifies list, list.moves
    ensures list.Valid()
    ensures list.Contents() == old(list.Contents()) + OwnPart(st, currentPiece)
  {
    PieceMoves(attacks, st, list, currentPiece, WHITE_KNIGHT, BLACK_KNIGHT);
    PieceMoves(attacks, st, list, currentPiece, WHITE_BISHOP, BLACK_BISHOP);
    PieceMoves(attacks, st, list, currentPiece, WHITE_ROOK, BLACK_ROOK);
    PieceMoves(attacks, st, list, currentPiece, WHITE_QUEEN, BLACK_QUEEN);
    PieceMoves(attacks, st, list, currentPiece, WHITE_KING, BLACK_KING);
  }

  /** The moves one iteration of generateMoves' loop emits for the visited piece board. */
  method GenerateSection(attacks: AttackTable, st: BoardState, list: MoveList, currentPiece: int)
    requires attacks.Ready() && WellFormed(st) && list.Valid() && 0 <= currentPiece < 12
    requires |list.Contents()| + |Section(st, currentPiece)| <= CAPACITY
    modifies list, list.moves
    ensures list.Valid() && attacks.Ready()
    ensures list.Contents() == old(list.Contents()) + Section(st, currentPiece)
  {
    ghost var before := list.Contents();
    SectionParts(st, currentPiece);
    RoomFor(before, SpecialPart(st, currentPiece), OwnPart(st, currentPiece), Section(st, currentPiece), CAPACITY);
    SpecialMoves(attacks, st, list, currentPiece);
    ReadyLookups(attacks, st);
    OwnPieceMoves(attacks, st, list, currentPiece);
    AppendParts(before, SpecialPart(st, currentPiece), OwnPart(st, currentPiece), before + Section(st, currentPiece));
  }

  /**
   * generateMoves: the pseudo-legal moves of the side to move, piece board
   * by piece board from the white pawns to the black king.
   */
  method GenerateMoves(attacks: AttackTable, st: BoardState) returns (output: MoveList)
    requires attacks.Ready() && WellFormed(st) && |Generated(st)| <= CAPACITY
    ensures fresh(output) && fresh(output.moves) && output.Valid()
    ensures output.Contents() == Generated(st)
  {
    output := new MoveList();
    for currentPiece := WHITE_PAWN to BLACK_KING + 1
      invariant fresh(output) && fresh(output.moves) && output.Valid() && attacks.Ready()
      invariant output.Contents() == SectionsBelow(st, currentPiece)
    {
      SectionsGrow(st, currentPiece + 1, 12);
      GenerateSection(attacks, st, output, currentPiece);
    }
  }
}
