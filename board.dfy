/**
 * The Board class (main.cpp): the mutable position the search plays on.
 *
 * Its fields are updated in place: populateOccupancies ORs the piece
 * boards into the occupancies, generateHash XORs the Zobrist keys of the
 * position into `hashKey`, and makeMove moves the pieces step by step,
 * then restores everything but the hash key when the move leaves the
 * mover's king attacked. Each method is proved against the value-level
 * definitions of BoardStates, Zobrist and MakeMoves.
 */
module Boards {
  import opened Wrappers
  import opened Bitboards
  import opened Geometry
  import opened MoveEncoding
  import opened AttackTables
  import opened BoardStates
  import opened Zobrist
  import opened MakeMoves
  import opened Evaluations

  /** `init | boards[lo] | ... | boards[hi-1]`, ORed in that order. */
  function OrFold(init: Bitboard, boards: seq<Bitboard>, lo: int, hi: int): Bitboard
    requires 0 <= lo && hi <= |boards|
    decreases hi - lo
  {
    if hi <= lo then init else Or(OrFold(init, boards, lo, hi - 1), boards[hi - 1])
  }

  /** What populateOccupancies leaves in the occupancies it started from. */
  function Populated(occupancies: seq<Bitboard>, boards: seq<Bitboard>): (r: seq<Bitboard>)
    requires |occupancies| == 3 && |boards| == 12
    ensures |r| == 3
  {
    var white := OrFold(occupancies[WHITE], boards, 0, 6);
    var black := OrFold(occupancies[BLACK], boards, 6, 12);
    [white, black, Or(white, black)]
  }

  /** After the two side loops, setting the shared occupancy completes Populated. */
  lemma PopulatedOf(occupancies: seq<Bitboard>, boards: seq<Bitboard>, x: seq<Bitboard>)
    requires |occupancies| == 3 && |boards| == 12
    requires x == occupancies[WHITE := OrFold(occupancies[WHITE], boards, 0, 6)][BLACK := OrFold(occupancies[BLACK], boards, 6, 12)]
    ensures x[BOTH := Or(x[WHITE], x[BLACK])] == Populated(occupancies, boards)
  {
  }

  /** Folding from zero is the union of the boards. */
  lemma {:induction false} OrFoldZero(boards: seq<Bitboard>, lo: int, hi: int)
    requires 0 <= lo && hi <= |boards|
    ensures OrFold(0, boards, lo, hi) == Union(boards, lo, hi)
    decreases hi - lo
  {
    if hi > lo {
      OrFoldZero(boards, lo, hi - 1);
    }
  }

  /**
   * resetOcuupancies followed by populateOccupancies derives the occupancies
   * from the piece boards alone: white's from boards 0-5, black's from
   * boards 6-11, and both sides' as their union.
   */
  lemma PopulatedAfterReset(boards: seq<Bitboard>)
    requires |boards| == 12
    ensures Populated([0, 0, 0], boards) == BoardStates.Occupancies(boards)
  {
    OrFoldZero(boards, 0, 6);
    OrFoldZero(boards, 6, 12);
  }

  /**
   * The hash word generateHash leaves: the old word with every key of the
   * position XORed in, pieces first, then the en-passant, castling and side
   * keys.
   */
  lemma HashAssembly(h: Bitboard, pieces: Bitboard, e: Bitboard, c: Bitboard, s: Bitboard)
    ensures Xor(Xor(Xor(Xor(h, pieces), e), c), s) == Xor(h, Xor(pieces, Xor(Xor(e, c), s)))
  {
    XorAssoc(Xor(h, pieces), e, c);
    XorAssoc(Xor(h, pieces), Xor(e, c), s);
    XorAssoc(h, pieces, Xor(Xor(e, c), s));
  }

  /** The word generateHash assembles from its parts is the old word XOR the position's hash. */
  lemma HashOfParts(keys: ZobristKeys, st: BoardState, x: Bitboard)
    requires KeysShaped(keys) && WellFormed(st)
    requires x == Xor(Xor(Xor(Xor(st.hashKey, PiecesHash(keys, st.bitboards, 12)), EnPassantHash(keys, st.enPassantSquareIndex)),
                          keys.castlingKeys[st.canCastle as int]), SideHash(keys, st.sideToMove))
    ensures x == Xor(st.hashKey, ZobristHash(keys, st))
  {
    HashAssembly(st.hashKey, PiecesHash(keys, st.bitboards, 12), EnPassantHash(keys, st.enPassantSquareIndex),
                 keys.castlingKeys[st.canCastle as int], SideHash(keys, st.sideToMove));
  }

  /** The hash of no squares is 0. */
  lemma {:induction false} SetHashEmpty(keys: seq<Bitboard>, from: int)
    requires |keys| == 64 && 0 <= from <= 64
    ensures SetHash(keys, {}, from) == 0
    decreases 64 - from
  {
    if from < 64 {
      SetHashEmpty(keys, from + 1);
    }
  }

  /**
   * Since generateHash never clears `hashKey`, the word it leaves sits at
   * the old word's distance from the position's hash; only a board whose
   * word was 0 ends up holding the hash itself.
   */
  lemma GeneratedDrift(keys: ZobristKeys, st: BoardState)
    requires KeysShaped(keys) && WellFormed(st)
    ensures Drift(keys, st.(hashKey := Xor(st.hashKey, ZobristHash(keys, st)))) == st.hashKey
    ensures st.hashKey == 0 ==> Xor(st.hashKey, ZobristHash(keys, st)) == ZobristHash(keys, st)
  {
    var z := ZobristHash(keys, st);
    var st' := st.(hashKey := Xor(st.hashKey, z));
    assert ZobristHash(keys, st') == z by {
      assert ExtrasHash(keys, st') == ExtrasHash(keys, st);
    }
    XorTwice(st.hashKey, z);
    XorZero(z);
  }

  /** A board is none of the attack tables, so the board's methods leave the check test's reads alone. */
  lemma NotATable(board: Board, attacks: AttackTable)
    ensures board !in attacks.Tables()
  {
  }

  class Board {
    var bitboards: seq<Bitboard>
    var occupancies: seq<Bitboard>
    var sideToMove: int
    var enPassantSquareIndex: int
    var canCastle: bv4
    var hashKey: Bitboard

    /** The fields as one value: what copying the Board (`Board temporary = board`) takes. */
    function State(): BoardState
      reads this
    {
      BoardState(bitboards, occupancies, sideToMove, enPassantSquareIndex, canCastle, hashKey)
    }

    ghost predicate Valid()
      reads this
    {
      WellFormed(State())
    }

    /**
     * Board(fenString) up to its hash: loadFenString resets the boards and
     * the occupancies, places the parsed pieces, rights, side and en-passant
     * square, and populates the occupancies. `hashKey` is never initialised,
     * so the word it holds is a parameter; GenerateHash is called next.
     */
    constructor Load(pieces: seq<Bitboard>, side: int, enPassant: int, rights: bv4, word: Bitboard)
      requires |pieces| == 12 && (side == WHITE || side == BLACK) && 0 <= enPassant <= NO_SQUARE_INDEX
      ensures Valid()
      ensures State() == BoardState(pieces, BoardStates.Occupancies(pieces), side, enPassant, rights, word)
    {
      bitboards := pieces;
      occupancies := [0, 0, 0];
      sideToMove := side;
      enPassantSquareIndex := enPassant;
      canCastle := rights;
      hashKey := word;
      new;
      PopulateOccupancies();
      PopulatedAfterReset(pieces);
    }

    /** `currentBoard = temporary`: every field takes the saved value. */
    method CopyFrom(st: BoardState)
      requires WellFormed(st)
      modifies this
      ensures Valid() && State() == st
    {
      bitboards, occupancies := st.bitboards, st.occupancies;
      sideToMove, enPassantSquareIndex := st.sideToMove, st.enPassantSquareIndex;
      canCastle, hashKey := st.canCastle, st.hashKey;
    }

    /** resetOcuupancies: all three occupancies become empty. */
    method ResetOccupancies()
      requires Valid()
      modifies this
      ensures Valid() && State() == old(State()).(occupancies := [0, 0, 0])
    {
      occupancies := [0, 0, 0];
    }

    /**
     * populateOccupancies: ORs white's boards into the white occupancy,
     * black's into the black one, and sets the shared one to their union.
     */
    method PopulateOccupancies()
      requires Valid()
      modifies this
      ensures Valid() && State() == old(State()).(occupancies := Populated(old(occupancies), bitboards))
    {
      OrIntoOccupancy(WHITE, WHITE_PAWN, WHITE_KING + 1);
      OrIntoOccupancy(BLACK, BLACK_PAWN, BLACK_KING + 1);
      PopulatedOf(old(occupancies), bitboards, occupancies);
      occupancies := occupancies[BOTH := Or(occupancies[WHITE], occupancies[BLACK])];
    }

    /** One loop of populateOccupancies: `occupancies[side] |= bitboards[p]` for p = lo .. hi-1. */
    method OrIntoOccupancy(side: int, lo: int, hi: int)
      requires Valid() && (side == WHITE || side == BLACK) && 0 <= lo <= hi <= 12
      modifies this
      ensures Valid() && State() == old(State()).(occupancies := old(occupancies)[side := OrFold(old(occupancies)[side], bitboards, lo, hi)])
    {
      var occupancy := occupancies[side];
      var currentPiece := lo;
      while currentPiece < hi
        invariant lo <= currentPiece <= hi
        invariant occupancy == OrFold(old(occupancies)[side], bitboards, lo, currentPiece)
      {
        occupancy := Or(occupancy, bitboards[currentPiece]);
        currentPiece := currentPiece + 1;
      }
      occupancies := occupancies[side := occupancy];
    }

    /**
     * generateHash: throws when the keys have not been generated; otherwise
     * XORs into `hashKey` the key of every piece on every square, then the
     * en-passant, castling and side keys. The word is not cleared first.
     */
    method GenerateHash(keys: ZobristKeys) returns (r: Result<()>)
      requires Valid() && KeysShaped(keys)
      modifies this
      ensures Valid()
      ensures !KeysGenerated(keys) ==> r == Failure(HashKeysNotInitialized) && State() == old(State())
      ensures KeysGenerated(keys) ==>
        r == Success(()) && State() == old(State()).(hashKey := Xor(old(hashKey), ZobristHash(keys, old(State()))))
    {
      if keys.pieceKeys[0][0] == 0 || keys.castlingKeys[0] == 0 || keys.enPassantKeys[0] == 0 || keys.sideKey == 0 {
        return Failure(HashKeysNotInitialized);
      }
      var hash := HashPieces(keys, hashKey);
      hash := HashExtras(keys, hash);
      HashOfParts(keys, State(), hash);
      hashKey := hash;
      r := Success(());
    }

    /** The outer loop of generateHash: the twelve piece boards, white pawns first. */
    method HashPieces(keys: ZobristKeys, hash: Bitboard) returns (r: Bitboard)
      requires Valid() && KeysShaped(keys)
      ensures r == Xor(hash, PiecesHash(keys, bitboards, 12))
    {
      r := hash;
      XorZero(hash);
      var currentPiece := WHITE_PAWN;
      while currentPiece <= BLACK_KING
        invariant WHITE_PAWN <= currentPiece <= BLACK_KING + 1
        invariant r == Xor(hash, PiecesHash(keys, bitboards, currentPiece))
      {
        r := HashPieceBoard(keys, currentPiece, r);
        XorAssoc(hash, PiecesHash(keys, bitboards, currentPiece), BoardHash(keys.pieceKeys[currentPiece], bitboards[currentPiece]));
        currentPiece := currentPiece + 1;
      }
    }

    /** The inner loop of generateHash: the keys of one piece board XORed in, lowest square first. */
    method HashPieceBoard(keys: ZobristKeys, piece: int, hash: Bitboard) returns (r: Bitboard)
      requires Valid() && KeysShaped(keys) && 0 <= piece < 12
      ensures r == Xor(hash, BoardHash(keys.pieceKeys[piece], bitboards[piece]))
    {
      r := hash;
      var currentBitboard := bitboards[piece];
      while currentBitboard != 0
        invariant Xor(r, BoardHash(keys.pieceKeys[piece], currentBitboard)) ==
                  Xor(hash, BoardHash(keys.pieceKeys[piece], bitboards[piece]))
        decreases PopCount(currentBitboard)
      {
        var lowest := GetLS1BIndex(currentBitboard);
        var squareIndex := lowest.value;
        ghost var h, b := r, currentBitboard;
        r := Xor(r, keys.pieceKeys[piece][squareIndex]);
        currentBitboard := PopBit(currentBitboard, squareIndex);
        BoardToggle(keys.pieceKeys[piece], b, squareIndex);
        XorComm(keys.pieceKeys[piece][squareIndex], BoardHash(keys.pieceKeys[piece], b));
        XorUndo(h, keys.pieceKeys[piece][squareIndex], BoardHash(keys.pieceKeys[piece], b));
      }
      SquaresZero();
      SetHashEmpty(keys.pieceKeys[piece], 0);
      XorZero(r);
    }

    /**
     * staticEvaluate: material plus square bonus of every piece, white
     * pieces first, each board lowest square first; the sum is negated when
     * black is to move.
     */
    method StaticEvaluate(t: EvalTables) returns (score: int)
      requires Valid() && TablesShaped(t)
      ensures score == Evaluation(t, State())
    {
      score := 0;
      var currentPiece := WHITE_PAWN;
      while currentPiece <= BLACK_KING
        invariant WHITE_PAWN <= currentPiece <= BLACK_KING + 1
        invariant score == BoardsScore(t, bitboards, currentPiece)
      {
        score := ScorePieceBoard(t, currentPiece, score);
        currentPiece := currentPiece + 1;
      }
      if sideToMove != WHITE {
        score := -score;
      }
    }

    /** The inner loop of staticEvaluate: each piece of one board adds its material and its square bonus. */
    method ScorePieceBoard(t: EvalTables, piece: int, score: int) returns (r: int)
      requires Valid() && TablesShaped(t) && 0 <= piece < 12
      ensures r == score + SetScore(t, piece, Squares(bitboards[piece]), 0)
    {
      r := score;
      var currentPieceBitboard := bitboards[piece];
      while currentPieceBitboard != 0
        invariant r + SetScore(t, piece, Squares(currentPieceBitboard), 0) == score + SetScore(t, piece, Squares(bitboards[piece]), 0)
        decreases PopCount(currentPieceBitboard)
      {
        r := r + t.material[piece];
        var lowest := GetLS1BIndex(currentPieceBitboard);
        var squareIndex := lowest.value;
        SetScorePop(t, piece, currentPieceBitboard);
        currentPieceBitboard := PopBit(currentPieceBitboard, squareIndex);
        r := r + SquareBonus(t, piece, squareIndex);
      }
      SquaresZero();
      SetScoreEmpty(t, piece, 0);
    }

    /** The tail of generateHash: the en-passant key when there is a square, the castling key, the side key for black. */
    method HashExtras(keys: ZobristKeys, hash: Bitboard) returns (r: Bitboard)
      requires Valid() && KeysShaped(keys)
      ensures r == Xor(Xor(Xor(hash, EnPassantHash(keys, enPassantSquareIndex)), keys.castlingKeys[canCastle as int]),
                       SideHash(keys, sideToMove))
    {
      r := hash;
      if enPassantSquareIndex != NO_SQUARE_INDEX {
        r := Xor(r, keys.enPassantKeys[enPassantSquareIndex]);
      } else {
        XorZero(r);
      }
      CastleIndex(canCastle);
      r := Xor(r, keys.castlingKeys[canCastle as int]);
      if sideToMove == BLACK {
        r := Xor(r, keys.sideKey);
      } else {
        XorZero(r);
      }
    }

    /** switchSideToMove: `sideToMove ^= 1`. */
    method SwitchSideToMove()
      requires Valid()
      modifies this
      ensures Valid() && State() == old(State()).(sideToMove := Opponent(old(sideToMove)))
    {
      sideToMove := Opponent(sideToMove);
    }

    /** resetEnPassantSquareIndex: no en-passant square; the hash key is left alone. */
    method ResetEnPassantSquareIndex()
      requires Valid()
      modifies this
      ensures Valid() && State() == old(State()).(enPassantSquareIndex := NO_SQUARE_INDEX)
    {
      enPassantSquareIndex := NO_SQUARE_INDEX;
    }

    /**
     * isKingInCheck: the lowest square of the mover's king board, tested
     * against the other side's attacks; an empty king board throws.
     */
    method IsKingInCheck(attacks: AttackTable) returns (r: Result<bool>)
      requires Valid() && attacks.Valid()
      ensures r == KingInCheck(attacks, State())
    {
      var kingSquare :- GetLS1BIndex(if sideToMove == WHITE then bitboards[WHITE_KING] else bitboards[BLACK_KING]);
      r := Success(SquareAttacked(attacks, State(), kingSquare, Opponent(sideToMove)));
    }

    // -------------------------------------------------------------------
    // makeMove, statement group by statement group
    // -------------------------------------------------------------------

    /** popBit of the start square, setBit of the target square, and their two keys. */
    method MovePieceStep(keys: ZobristKeys, f: MoveFields, ghost a: Applied)
      requires Valid() && KeysShaped(keys) && a.st == State() && Playable(a.st, f)
      modifies this
      ensures State() == MovePiece(keys, a, f).st
    {
      bitboards := bitboards[f.piece := PopBit(bitboards[f.piece], f.start)];
      bitboards := bitboards[f.piece := SetBit(bitboards[f.piece], f.target)];
      hashKey := Xor(hashKey, keys.pieceKeys[f.piece][f.start]);
      hashKey := Xor(hashKey, keys.pieceKeys[f.piece][f.target]);
    }

    /** The capture loop: the first enemy board holding the target square loses it, and the loop stops. */
    method CaptureStep(keys: ZobristKeys, target: int, ghost a: Applied)
      requires Valid() && KeysShaped(keys) && a.st == State() && 0 <= target < 64
      modifies this
      ensures State() == Capture(keys, a, target, FirstVictim(a.st.sideToMove), LastVictim(a.st.sideToMove)).st
    {
      var startPiece, endPiece;
      if sideToMove == WHITE {
        startPiece, endPiece := BLACK_PAWN, BLACK_KING;
      } else {
        startPiece, endPiece := WHITE_PAWN, WHITE_KING;
      }
      var currentPiece := startPiece;
      while currentPiece <= endPiece
        invariant startPiece <= currentPiece <= endPiece + 1
        invariant State() == a.st
        invariant Capture(keys, a, target, startPiece, endPiece) == Capture(keys, a, target, currentPiece, endPiece)
      {
        if GetBit(bitboards[currentPiece], target) == 1 {
          bitboards := bitboards[currentPiece := PopBit(bitboards[currentPiece], target)];
          hashKey := Xor(hashKey, keys.pieceKeys[currentPiece][target]);
          break;
        }
        currentPiece := currentPiece + 1;
      }
    }

    /** Promotion: the mover's pawn leaves the target square and the promoted piece is set there. */
    method PromoteStep(keys: ZobristKeys, target: int, promoted: int, ghost a: Applied)
      requires Valid() && KeysShaped(keys) && a.st == State() && 0 <= target < 64 && 0 <= promoted < 12
      modifies this
      ensures State() == Promote(keys, a, target, promoted).st
    {
      if sideToMove == WHITE {
        bitboards := bitboards[WHITE_PAWN := PopBit(bitboards[WHITE_PAWN], target)];
        hashKey := Xor(hashKey, keys.pieceKeys[WHITE_PAWN][target]);
      } else {
        bitboards := bitboards[BLACK_PAWN := PopBit(bitboards[BLACK_PAWN], target)];
        hashKey := Xor(hashKey, keys.pieceKeys[BLACK_PAWN][target]);
      }
      bitboards := bitboards[promoted := SetBit(bitboards[promoted], target)];
      hashKey := Xor(hashKey, keys.pieceKeys[promoted][target]);
    }

    /** En passant: the enemy pawn behind the target square is popped. */
    method EnPassantCaptureStep(keys: ZobristKeys, target: int, ghost a: Applied)
      requires Valid() && KeysShaped(keys) && a.st == State() && 0 <= Behind(sideToMove, target) < 64
      modifies this
      ensures State() == EnPassantCapture(keys, a, target).st
    {
      if sideToMove == WHITE {
        bitboards := bitboards[BLACK_PAWN := PopBit(bitboards[BLACK_PAWN], target + 8)];
        hashKey := Xor(hashKey, keys.pieceKeys[BLACK_PAWN][target + 8]);
      } else {
        bitboards := bitboards[WHITE_PAWN := PopBit(bitboards[WHITE_PAWN], target - 8)];
        hashKey := Xor(hashKey, keys.pieceKeys[WHITE_PAWN][target - 8]);
      }
    }

    /** The en-passant key leaves the hash, the square is cleared, and a double push sets the square behind the target. */
    method EnPassantUpdateStep(keys: ZobristKeys, doublePush: bool, target: int, ghost a: Applied)
      requires Valid() && KeysShaped(keys) && a.st == State()
      requires doublePush ==> 0 <= Behind(sideToMove, target) < 64
      modifies this
      ensures State() == EnPassantUpdate(keys, a, doublePush, target).st
    {
      if enPassantSquareIndex != NO_SQUARE_INDEX {
        hashKey := Xor(hashKey, keys.enPassantKeys[enPassantSquareIndex]);
      }
      enPassantSquareIndex := NO_SQUARE_INDEX;
      if doublePush {
        if sideToMove == WHITE {
          enPassantSquareIndex := target + 8;
        } else {
          enPassantSquareIndex := target - 8;
        }
        hashKey := Xor(hashKey, keys.enPassantKeys[enPassantSquareIndex]);
      }
    }

    /** Castling: the switch on the king's target square moves the matching rook. */
    method CastleRookStep(keys: ZobristKeys, target: int, ghost a: Applied)
      requires Valid() && KeysShaped(keys) && a.st == State()
      modifies this
      ensures State() == CastleRook(keys, a, target).st
    {
      if target == G1 {
        MoveRook(keys, WHITE_ROOK, H1, F1);
      } else if target == C1 {
        MoveRook(keys, WHITE_ROOK, A1, D1);
      } else if target == G8 {
        MoveRook(keys, BLACK_ROOK, H8, F8);
      } else if target == C8 {
        MoveRook(keys, BLACK_ROOK, A8, D8);
      }
    }

    /** One case of the castling switch: popBit, setBit and both keys. */
    method MoveRook(keys: ZobristKeys, rook: int, from: int, to: int)
      requires Valid() && KeysShaped(keys) && 0 <= rook < 12 && 0 <= from < 64 && 0 <= to < 64
      modifies this
      ensures State() == Toggle(keys, Toggle(keys, Applied(old(State()), true), rook, from, false), rook, to, true).st
    {
      var hash := Xor(hashKey, keys.pieceKeys[rook][from]);
      hash := Xor(hash, keys.pieceKeys[rook][to]);
      bitboards := bitboards[rook := PopBit(bitboards[rook], from)];
      bitboards := bitboards[rook := SetBit(bitboards[rook], to)];
      hashKey := hash;
    }

    /** The castling key leaves the hash, the rights are masked by CASTLE_STATE twice, and the new key enters. */
    method CastlingRightsStep(keys: ZobristKeys, castleState: seq<bv4>, start: int, target: int, ghost a: Applied)
      requires Valid() && KeysShaped(keys) && a.st == State() && |castleState| == 64 && 0 <= start < 64 && 0 <= target < 64
      modifies this
      ensures State() == CastlingRights(keys, castleState, a, start, target).st
    {
      CastleIndex(canCastle);
      hashKey := Xor(hashKey, keys.castlingKeys[canCastle as int]);
      canCastle := canCastle & castleState[start];
      canCastle := canCastle & castleState[target];
      CastleIndex(canCastle);
      hashKey := Xor(hashKey, keys.castlingKeys[canCastle as int]);
    }

    /**
     * The body of makeMove up to its legality test: every step in the
     * source's order, then the occupancies recomputed from scratch.
     */
    method PlayMove(keys: ZobristKeys, castleState: seq<bv4>, f: MoveFields)
      requires Valid() && KeysShaped(keys) && |castleState| == 64 && Playable(State(), f)
      modifies this
      ensures Valid() && State() == Played(keys, castleState, old(State()), f).st
    {
      ghost var a := PiecesMoved(keys, State(), f);
      MovePieces(keys, f);
      EnPassantUpdateStep(keys, f.doublePush, f.target, a);
      a := EnPassantUpdate(keys, a, f.doublePush, f.target);
      if f.castling {
        CastleRookStep(keys, f.target, a);
        a := CastleRook(keys, a, f.target);
      }
      CastlingRightsStep(keys, castleState, f.start, f.target, a);
      ResetOccupancies();
      PopulateOccupancies();
      PopulatedAfterReset(bitboards);
    }

    /** The statements of makeMove that move pieces: the mover, the capture loop, the promotion and en passant. */
    method MovePieces(keys: ZobristKeys, f: MoveFields)
      requires Valid() && KeysShaped(keys) && Playable(State(), f)
      modifies this
      ensures Valid() && State() == PiecesMoved(keys, old(State()), f).st
    {
      ghost var a := Applied(State(), true);
      MovePieceStep(keys, f, a);
      a := MovePiece(keys, a, f);
      if f.capture {
        CaptureStep(keys, f.target, a);
        a := Capture(keys, a, f.target, FirstVictim(a.st.sideToMove), LastVictim(a.st.sideToMove));
      }
      if f.promoted != 0 {
        PromoteStep(keys, f.target, f.promoted, a);
        a := Promote(keys, a, f.target, f.promoted);
      }
      if f.enPassant {
        EnPassantCaptureStep(keys, f.target, a);
        a := EnPassantCapture(keys, a, f.target);
      }
    }

    /**
     * makeMove: snapshot, play, test the mover's king. When it is attacked
     * every field but `hashKey` is restored and 0 is answered; otherwise the
     * side flips, the side key enters the hash and 1 is answered. A missing
     * king throws from the check test, after the pieces have moved.
     */
    method MakeMove(keys: ZobristKeys, castleState: seq<bv4>, attacks: AttackTable, move: Move) returns (r: Result<int>)
      requires Valid() && attacks.Valid() && KeysShaped(keys) && |castleState| == 64 && Playable(State(), Fields(move))
      modifies this
      ensures Valid()
      ensures var out := MakeMoves.MakeMove(keys, castleState, attacks, old(State()), Fields(move));
        if out.Success? then r == Success(out.value.made) && State() == out.value.after.st
        else r == Failure(out.error) && State() == Played(keys, castleState, old(State()), Fields(move)).st
    {
      var tempBitboards, tempOccupancies := bitboards, occupancies;
      var tempEnPassantSquareIndex, tempCanCastle := enPassantSquareIndex, canCastle;
      PlayMove(keys, castleState, Fields(move));
      r := Settle(keys, attacks, tempBitboards, tempOccupancies, tempEnPassantSquareIndex, tempCanCastle);
    }

    /**
     * The end of makeMove: the check test, then either the snapshot copied
     * back (answer 0) or the side flipped with its key entering the hash
     * (answer 1), stated with the test read after the fields have changed.
     */
    method Settle(keys: ZobristKeys, attacks: AttackTable, pieces: seq<Bitboard>, occupied: seq<Bitboard>, enPassant: int, rights: bv4)
      returns (r: Result<int>)
      requires Valid() && attacks.Valid() && |pieces| == 12 && |occupied| == 3 && 0 <= enPassant <= NO_SQUARE_INDEX
      modifies this
      ensures Valid()
      ensures var check := KingInCheck(attacks, old(State()));
        if check.Failure? then r == Failure(check.error) && State() == old(State())
        else if check.value then
          r == Success(0) && State() == old(State()).(bitboards := pieces, occupancies := occupied, enPassantSquareIndex := enPassant, canCastle := rights)
        else
          r == Success(1) && State() == old(State()).(sideToMove := Opponent(old(sideToMove)), hashKey := Xor(old(hashKey), keys.sideKey))
    {
      NotATable(this, attacks);
      r := Decide(keys, attacks, pieces, occupied, enPassant, rights);
      assert unchanged(attacks.pawnAttacks, attacks.knightAttacks, attacks.kingAttacks, attacks.bishopAttacks, attacks.rookAttacks,
                       attacks.bishopMasks, attacks.rookMasks, attacks.bishopMagics, attacks.rookMagics);
    }

    /**
     * Settle with the check test read before the fields change. The test is
     * isKingInCheck's specification, KingInCheck, on the current fields.
     */
    method Decide(keys: ZobristKeys, attacks: AttackTable, pieces: seq<Bitboard>, occupied: seq<Bitboard>, enPassant: int, rights: bv4)
      returns (r: Result<int>)
      requires Valid() && attacks.Valid() && |pieces| == 12 && |occupied| == 3 && 0 <= enPassant <= NO_SQUARE_INDEX
      modifies this
      ensures Valid()
      ensures var check := old(KingInCheck(attacks, State()));
        if check.Failure? then r == Failure(check.error) && State() == old(State())
        else if check.value then
          r == Success(0) && State() == old(State()).(bitboards := pieces, occupancies := occupied, enPassantSquareIndex := enPassant, canCastle := rights)
        else
          r == Success(1) && State() == old(State()).(sideToMove := Opponent(old(sideToMove)), hashKey := Xor(old(hashKey), keys.sideKey))
    {
      var inCheck :- KingInCheck(attacks, State());
      if inCheck {
        Restore(pieces, occupied, enPassant, rights);
        return Success(0);
      }
      SwitchSideToMove();
      var hash := Xor(hashKey, keys.sideKey);
      hashKey := hash;
      r := Success(1);
    }

    /** The copy-back of makeMove's snapshot: every field but the side to move and the hash key. */
    method Restore(pieces: seq<Bitboard>, occupied: seq<Bitboard>, enPassant: int, rights: bv4)
      requires Valid() && |pieces| == 12 && |occupied| == 3 && 0 <= enPassant <= NO_SQUARE_INDEX
      modifies this
      ensures Valid()
      ensures State() == old(State()).(bitboards := pieces, occupancies := occupied, enPassantSquareIndex := enPassant, canCastle := rights)
    {
      bitboards, occupancies := pieces, occupied;
      enPassantSquareIndex, canCastle := enPassant, rights;
    }
  }
}
