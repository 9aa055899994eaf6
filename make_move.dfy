/**
 * makeMove (main.cpp) on board values.
 *
 * makeMove snapshots the board, moves the piece, removes a captured piece,
 * handles promotion, en passant, the double-push square, the castling rook
 * and the castling rights, updating the Zobrist hash key incrementally as
 * it goes, then recomputes the occupancies and checks whether the mover's
 * king is attacked. If it is, everything but the hash key is restored and
 * 0 is returned; otherwise the side to move flips and 1 is returned.
 *
 * The steps below follow the source's statements in order. Each step that
 * pops or sets a bit also records whether that bit really changed (`exact`):
 * the incremental hash is right exactly when every such step did.
 */
module MakeMoves {
  import opened Wrappers
  import opened Bitboards
  import opened Geometry
  import opened MoveEncoding
  import opened AttackTables
  import opened BoardStates
  import opened Zobrist

  /** A board state, and whether every popBit and setBit applied to reach it changed the bit it names. */
  datatype Applied = Applied(st: BoardState, exact: bool)

  /** The fields makeMove reads from a move. */
  datatype MoveFields = MoveFields(
    start: int, target: int, piece: int, promoted: int,
    capture: bool, doublePush: bool, enPassant: bool, castling: bool)

  /** The fields of an encoded move, through the getters of move_encoding.h. */
  function Fields(move: Move): MoveFields
  {
    MoveFields(GetStartSquareIndex(move), GetTargetSquareIndex(move), GetPiece(move), GetPromotedPiece(move),
               IsCapture(move), IsDoublePawnPush(move), IsEnPassant(move), IsCastling(move))
  }

  /** The square behind a pawn of `side` that moved to `target`: a white pawn's is below it (higher index). */
  function Behind(side: int, target: int): int
  {
    if side == WHITE then target + 8 else target - 8
  }

  /**
   * What makeMove demands of a move without checking it: the moving and
   * the promoted piece index the twelve boards, and the squares behind the
   * target that en passant and a double push touch are on the board.
   */
  predicate Playable(st: BoardState, f: MoveFields)
  {
    0 <= f.start < 64 && 0 <= f.target < 64 && 0 <= f.piece < 12 && 0 <= f.promoted < 12 &&
    ((f.enPassant || f.doublePush) ==> 0 <= Behind(st.sideToMove, f.target) < 64)
  }

  // ---------------------------------------------------------------------
  // One popBit or setBit, with its hash update
  // ---------------------------------------------------------------------

  /** `popBit`/`setBit` of square s on board p, and `hashKey ^= PIECE_KEYS[p][s]`. */
  function Toggle(keys: ZobristKeys, a: Applied, p: int, s: int, put: bool): (r: Applied)
    requires KeysShaped(keys) && WellFormed(a.st) && 0 <= p < 12 && 0 <= s < 64
    ensures WellFormed(r.st)
    ensures Squares(r.st.bitboards[p]) == if put then Squares(a.st.bitboards[p]) + {s} else Squares(a.st.bitboards[p]) - {s}
    ensures r.exact == (a.exact && (put == (s !in Squares(a.st.bitboards[p]))))
    ensures r.st.enPassantSquareIndex == a.st.enPassantSquareIndex && r.st.canCastle == a.st.canCastle
  {
    var b := a.st.bitboards[p];
    Applied(a.st.(bitboards := a.st.bitboards[p := if put then SetBit(b, s) else PopBit(b, s)],
                  hashKey := Xor(a.st.hashKey, keys.pieceKeys[p][s])),
            a.exact && put == !Bit(b, s))
  }

  /** A pop or set that changes its bit keeps the drift between the hash key and the position's hash. */
  lemma ToggleDrift(keys: ZobristKeys, a: Applied, p: int, s: int, put: bool)
    requires KeysShaped(keys) && WellFormed(a.st) && 0 <= p < 12 && 0 <= s < 64
    requires put == (s !in Squares(a.st.bitboards[p]))
    ensures Drift(keys, Toggle(keys, a, p, s, put).st) == Drift(keys, a.st)
  {
    var r := Toggle(keys, a, p, s, put);
    PiecesToggle(keys, a.st.bitboards, p, s);
    DriftToggle(keys, a.st, r.st, keys.pieceKeys[p][s]);
  }

  /** Exactness only ever gets lost, and while it holds the drift is kept. */
  predicate Keeps(keys: ZobristKeys, a: Applied, r: Applied)
    requires KeysShaped(keys) && WellFormed(a.st) && WellFormed(r.st)
  {
    (r.exact ==> a.exact) && (r.exact ==> Drift(keys, r.st) == Drift(keys, a.st))
  }

  lemma ToggleKeeps(keys: ZobristKeys, a: Applied, p: int, s: int, put: bool)
    requires KeysShaped(keys) && WellFormed(a.st) && 0 <= p < 12 && 0 <= s < 64
    ensures Keeps(keys, a, Toggle(keys, a, p, s, put))
  {
    if put == (s !in Squares(a.st.bitboards[p])) {
      ToggleDrift(keys, a, p, s, put);
    }
  }

  lemma KeepsTrans(keys: ZobristKeys, a: Applied, b: Applied, c: Applied)
    requires KeysShaped(keys) && WellFormed(a.st) && WellFormed(b.st) && WellFormed(c.st)
    requires Keeps(keys, a, b) && Keeps(keys, b, c)
    ensures Keeps(keys, a, c)
  {
  }

  // ---------------------------------------------------------------------
  // The steps of makeMove
  // ---------------------------------------------------------------------

  /** Lift the piece off the start square and put it on the target square. */
  function MovePiece(keys: ZobristKeys, a: Applied, f: MoveFields): (r: Applied)
    requires KeysShaped(keys) && WellFormed(a.st) && Playable(a.st, f)
    ensures WellFormed(r.st) && r.st.sideToMove == a.st.sideToMove
    ensures r.st.enPassantSquareIndex == a.st.enPassantSquareIndex && r.st.canCastle == a.st.canCastle
  {
    Toggle(keys, Toggle(keys, a, f.piece, f.start, false), f.piece, f.target, true)
  }

  /**
   * The capture loop: the first of the pieces `from` .. `last` that stands
   * on the target square is taken off it, and the search stops there.
   */
  function Capture(keys: ZobristKeys, a: Applied, target: int, from: int, last: int): (r: Applied)
    requires KeysShaped(keys) && WellFormed(a.st) && 0 <= target < 64 && 0 <= from && last < 12
    ensures WellFormed(r.st) && r.st.sideToMove == a.st.sideToMove
    ensures r.exact == a.exact
    ensures r.st.enPassantSquareIndex == a.st.enPassantSquareIndex && r.st.canCastle == a.st.canCastle
    decreases last + 1 - from
  {
    if from > last then a
    else if Bit(a.st.bitboards[from], target) then Toggle(keys, a, from, target, false)
    else Capture(keys, a, target, from + 1, last)
  }

  /** The first and last piece of the side that does not move: black's for white, white's for black. */
  function FirstVictim(side: int): int { if side == WHITE then BLACK_PAWN else WHITE_PAWN }
  function LastVictim(side: int): int { if side == WHITE then BLACK_KING else WHITE_KING }

  /** Promotion: the mover's pawn leaves the target square and the promoted piece appears there. */
  function Promote(keys: ZobristKeys, a: Applied, target: int, promoted: int): (r: Applied)
    requires KeysShaped(keys) && WellFormed(a.st) && 0 <= target < 64 && 0 <= promoted < 12
    ensures WellFormed(r.st) && r.st.sideToMove == a.st.sideToMove
    ensures r.st.enPassantSquareIndex == a.st.enPassantSquareIndex && r.st.canCastle == a.st.canCastle
  {
    var pawn := if a.st.sideToMove == WHITE then WHITE_PAWN else BLACK_PAWN;
    Toggle(keys, Toggle(keys, a, pawn, target, false), promoted, target, true)
  }

  /** En passant: the enemy pawn behind the target square is removed. */
  function EnPassantCapture(keys: ZobristKeys, a: Applied, target: int): (r: Applied)
    requires KeysShaped(keys) && WellFormed(a.st) && 0 <= Behind(a.st.sideToMove, target) < 64
    ensures WellFormed(r.st) && r.st.sideToMove == a.st.sideToMove
    ensures r.st.enPassantSquareIndex == a.st.enPassantSquareIndex && r.st.canCastle == a.st.canCastle
  {
    if a.st.sideToMove == WHITE then Toggle(keys, a, BLACK_PAWN, target + 8, false)
    else Toggle(keys, a, WHITE_PAWN, target - 8, false)
  }

  /**
   * The old en-passant key leaves the hash, the square is cleared, and a
   * double push sets it to the square behind the target, whose key enters.
   */
  function EnPassantUpdate(keys: ZobristKeys, a: Applied, doublePush: bool, target: int): (r: Applied)
    requires KeysShaped(keys) && WellFormed(a.st)
    requires doublePush ==> 0 <= Behind(a.st.sideToMove, target) < 64
    ensures WellFormed(r.st) && r.st.sideToMove == a.st.sideToMove && r.exact == a.exact
    ensures r.st.enPassantSquareIndex == if doublePush then Behind(a.st.sideToMove, target) else NO_SQUARE_INDEX
  {
    var st := a.st;
    var h := if st.enPassantSquareIndex != NO_SQUARE_INDEX then Xor(st.hashKey, keys.enPassantKeys[st.enPassantSquareIndex]) else st.hashKey;
    if doublePush then
      var ep := Behind(st.sideToMove, target);
      Applied(st.(enPassantSquareIndex := ep, hashKey := Xor(h, keys.enPassantKeys[ep])), a.exact)
    else
      Applied(st.(enPassantSquareIndex := NO_SQUARE_INDEX, hashKey := h), a.exact)
  }

  /** Castling: the rook jumps over the king, by the king's target square. */
  function CastleRook(keys: ZobristKeys, a: Applied, target: int): (r: Applied)
    requires KeysShaped(keys) && WellFormed(a.st)
    ensures WellFormed(r.st) && r.st.sideToMove == a.st.sideToMove
    ensures r.st.enPassantSquareIndex == a.st.enPassantSquareIndex && r.st.canCastle == a.st.canCastle
  {
    if target == G1 then Toggle(keys, Toggle(keys, a, WHITE_ROOK, H1, false), WHITE_ROOK, F1, true)
    else if target == C1 then Toggle(keys, Toggle(keys, a, WHITE_ROOK, A1, false), WHITE_ROOK, D1, true)
    else if target == G8 then Toggle(keys, Toggle(keys, a, BLACK_ROOK, H8, false), BLACK_ROOK, F8, true)
    else if target == C8 then Toggle(keys, Toggle(keys, a, BLACK_ROOK, A8, false), BLACK_ROOK, D8, true)
    else a
  }

  /** `hashKey ^= CASTLING_KEYS[canCastle]`: the key of the rights before the move leaves the hash. */
  function CastlingKeyOut(keys: ZobristKeys, a: Applied): (r: Applied)
    requires KeysShaped(keys) && WellFormed(a.st)
    ensures WellFormed(r.st) && r.exact == a.exact
    ensures r.st == a.st.(hashKey := r.st.hashKey)
  {
    CastleIndex(a.st.canCastle);
    Applied(a.st.(hashKey := Xor(a.st.hashKey, keys.castlingKeys[a.st.canCastle as int])), a.exact)
  }

  /**
   * The castling rights keep only what CASTLE_STATE allows for the start
   * and the target square, and the key of the new rights enters the hash.
   */
  function NarrowRights(keys: ZobristKeys, castleState: seq<bv4>, a: Applied, start: int, target: int): (r: Applied)
    requires KeysShaped(keys) && WellFormed(a.st) && |castleState| == 64 && 0 <= start < 64 && 0 <= target < 64
    ensures WellFormed(r.st) && r.exact == a.exact
    ensures r.st == a.st.(canCastle := r.st.canCastle, hashKey := r.st.hashKey)
    ensures r.st.canCastle & a.st.canCastle == r.st.canCastle
  {
    var st := a.st;
    var rights := st.canCastle & castleState[start] & castleState[target];
    Narrows(st.canCastle, castleState[start], castleState[target]);
    CastleIndex(rights);
    Applied(st.(canCastle := rights, hashKey := Xor(st.hashKey, keys.castlingKeys[rights as int])), a.exact)
  }

  /** The two castling-rights steps of makeMove. */
  function CastlingRights(keys: ZobristKeys, castleState: seq<bv4>, a: Applied, start: int, target: int): (r: Applied)
    requires KeysShaped(keys) && WellFormed(a.st) && |castleState| == 64 && 0 <= start < 64 && 0 <= target < 64
    ensures WellFormed(r.st) && r.st.sideToMove == a.st.sideToMove && r.exact == a.exact
    ensures r.st.canCastle & a.st.canCastle == r.st.canCastle
    ensures r.st.enPassantSquareIndex == a.st.enPassantSquareIndex
  {
    NarrowRights(keys, castleState, CastlingKeyOut(keys, a), start, target)
  }

  /** Masking rights with two CASTLE_STATE entries keeps a subset of them. */
  lemma Narrows(rights: bv4, x: bv4, y: bv4)
    ensures (rights & x & y) & rights == rights & x & y
  {
  }

  /** Castling rights index the 16 castling keys. */
  lemma CastleIndex(rights: bv4)
    ensures 0 <= rights as int < 16
  {
  }

  /** The steps of makeMove that move pieces on and off the boards: the mover, the captured piece, the promotion and en passant. */
  function PiecesMoved(keys: ZobristKeys, st: BoardState, f: MoveFields): (r: Applied)
    requires KeysShaped(keys) && WellFormed(st) && Playable(st, f)
    ensures WellFormed(r.st) && r.st.sideToMove == st.sideToMove
    ensures r.st.enPassantSquareIndex == st.enPassantSquareIndex && r.st.canCastle == st.canCastle
  {
    var a1 := MovePiece(keys, Applied(st, true), f);
    var a2 := if f.capture then Capture(keys, a1, f.target, FirstVictim(st.sideToMove), LastVictim(st.sideToMove)) else a1;
    var a3 := if f.promoted != 0 then Promote(keys, a2, f.target, f.promoted) else a2;
    if f.enPassant then EnPassantCapture(keys, a3, f.target) else a3
  }

  /**
   * Everything makeMove does before its legality test: the steps above in
   * the source's order, then `resetOcuupancies` and `populateOccupancies`.
   */
  function Played(keys: ZobristKeys, castleState: seq<bv4>, st: BoardState, f: MoveFields): (r: Applied)
    requires KeysShaped(keys) && |castleState| == 64 && WellFormed(st) && Playable(st, f)
    ensures WellFormed(r.st) && r.st.sideToMove == st.sideToMove
    ensures r.st.enPassantSquareIndex == if f.doublePush then Behind(st.sideToMove, f.target) else NO_SQUARE_INDEX
    ensures r.st.canCastle & st.canCastle == r.st.canCastle
    ensures r.st.occupancies == BoardStates.Occupancies(r.st.bitboards)
  {
    var a4 := PiecesMoved(keys, st, f);
    var a5 := EnPassantUpdate(keys, a4, f.doublePush, f.target);
    var a6 := if f.castling then CastleRook(keys, a5, f.target) else a5;
    var a7 := CastlingRights(keys, castleState, a6, f.start, f.target);
    Applied(a7.st.(occupancies := BoardStates.Occupancies(a7.st.bitboards)), a7.exact)
  }

  /** makeMove's answer: 1 for a legal move, 0 for one that leaves the mover's king attacked. */
  datatype Outcome = Outcome(made: int, after: Applied)

  /**
   * makeMove. A position whose mover has no king makes the lowest-bit
   * search of the check test throw.
   */
  function MakeMove(keys: ZobristKeys, castleState: seq<bv4>, attacks: AttackTable, st: BoardState, f: MoveFields): (r: Result<Outcome>)
    requires attacks.Valid() && KeysShaped(keys) && |castleState| == 64 && WellFormed(st) && Playable(st, f)
    reads attacks.pawnAttacks, attacks.knightAttacks, attacks.kingAttacks, attacks.bishopAttacks, attacks.rookAttacks, attacks.bishopMasks, attacks.rookMasks, attacks.bishopMagics, attacks.rookMagics
    ensures r.Failure? <==> KingBoard(Played(keys, castleState, st, f).st) == 0
    ensures r.Success? ==> r.value.made == 0 || r.value.made == 1
    ensures r.Success? ==> WellFormed(r.value.after.st) && r.value.after.exact == Played(keys, castleState, st, f).exact
  {
    var played := Played(keys, castleState, st, f);
    var moved := played.st;
    var check := KingInCheck(attacks, moved);
    if check.Failure? then Failure(check.error)
    else if check.value then
      Success(Outcome(0, Applied(st.(hashKey := moved.hashKey), played.exact)))
    else
      Success(Outcome(1, Applied(moved.(sideToMove := Opponent(moved.sideToMove), hashKey := Xor(moved.hashKey, keys.sideKey)), played.exact)))
  }

  // ---------------------------------------------------------------------
  // Each step keeps the drift while it stays exact
  // ---------------------------------------------------------------------

  lemma MovePieceKeeps(keys: ZobristKeys, a: Applied, f: MoveFields)
    requires KeysShaped(keys) && WellFormed(a.st) && Playable(a.st, f)
    ensures Keeps(keys, a, MovePiece(keys, a, f))
  {
    var a1 := Toggle(keys, a, f.piece, f.start, false);
    ToggleKeeps(keys, a, f.piece, f.start, false);
    ToggleKeeps(keys, a1, f.piece, f.target, true);
    KeepsTrans(keys, a, a1, MovePiece(keys, a, f));
  }

  lemma {:induction false} CaptureKeeps(keys: ZobristKeys, a: Applied, target: int, from: int, last: int)
    requires KeysShaped(keys) && WellFormed(a.st) && 0 <= target < 64 && 0 <= from && last < 12
    ensures Keeps(keys, a, Capture(keys, a, target, from, last))
    decreases last + 1 - from
  {
    if from <= last {
      if Bit(a.st.bitboards[from], target) {
        ToggleKeeps(keys, a, from, target, false);
      } else {
        CaptureKeeps(keys, a, target, from + 1, last);
      }
    }
  }

  lemma PromoteKeeps(keys: ZobristKeys, a: Applied, target: int, promoted: int)
    requires KeysShaped(keys) && WellFormed(a.st) && 0 <= target < 64 && 0 <= promoted < 12
    ensures Keeps(keys, a, Promote(keys, a, target, promoted))
  {
    var pawn := if a.st.sideToMove == WHITE then WHITE_PAWN else BLACK_PAWN;
    var a1 := Toggle(keys, a, pawn, target, false);
    ToggleKeeps(keys, a, pawn, target, false);
    ToggleKeeps(keys, a1, promoted, target, true);
    KeepsTrans(keys, a, a1, Promote(keys, a, target, promoted));
  }

  lemma EnPassantCaptureKeeps(keys: ZobristKeys, a: Applied, target: int)
    requires KeysShaped(keys) && WellFormed(a.st) && 0 <= Behind(a.st.sideToMove, target) < 64
    ensures Keeps(keys, a, EnPassantCapture(keys, a, target))
  {
    if a.st.sideToMove == WHITE {
      ToggleKeeps(keys, a, BLACK_PAWN, target + 8, false);
    } else {
      ToggleKeeps(keys, a, WHITE_PAWN, target - 8, false);
    }
  }

  lemma RookMoveKeeps(keys: ZobristKeys, a: Applied, rook: int, from: int, to: int)
    requires KeysShaped(keys) && WellFormed(a.st) && 0 <= rook < 12 && 0 <= from < 64 && 0 <= to < 64
    ensures Keeps(keys, a, Toggle(keys, Toggle(keys, a, rook, from, false), rook, to, true))
  {
    var a1 := Toggle(keys, a, rook, from, false);
    ToggleKeeps(keys, a, rook, from, false);
    ToggleKeeps(keys, a1, rook, to, true);
    KeepsTrans(keys, a, a1, Toggle(keys, a1, rook, to, true));
  }

  lemma CastleRookKeeps(keys: ZobristKeys, a: Applied, target: int)
    requires KeysShaped(keys) && WellFormed(a.st)
    ensures Keeps(keys, a, CastleRook(keys, a, target))
  {
    if target == G1 { RookMoveKeeps(keys, a, WHITE_ROOK, H1, F1); }
    else if target == C1 { RookMoveKeeps(keys, a, WHITE_ROOK, A1, D1); }
    else if target == G8 { RookMoveKeeps(keys, a, BLACK_ROOK, H8, F8); }
    else if target == C8 { RookMoveKeeps(keys, a, BLACK_ROOK, A8, D8); }
  }

  /** Swapping the en-passant square's key in the hash as the square changes keeps the drift. */
  lemma EnPassantDrift(keys: ZobristKeys, st: BoardState, r: BoardState)
    requires KeysShaped(keys) && WellFormed(st) && WellFormed(r)
    requires r == st.(enPassantSquareIndex := r.enPassantSquareIndex,
                      hashKey := Xor(Xor(st.hashKey, EnPassantHash(keys, st.enPassantSquareIndex)),
                                     EnPassantHash(keys, r.enPassantSquareIndex)))
    ensures Drift(keys, r) == Drift(keys, st)
  {
    var x, y := EnPassantHash(keys, st.enPassantSquareIndex), EnPassantHash(keys, r.enPassantSquareIndex);
    ReplaceFirst(x, keys.castlingKeys[st.canCastle as int], SideHash(keys, st.sideToMove), y);
    DriftExtras(keys, st, r, x, y);
  }

  /** The en-passant square's keys are swapped in the hash exactly as the square changes. */
  lemma EnPassantUpdateKeeps(keys: ZobristKeys, a: Applied, doublePush: bool, target: int)
    requires KeysShaped(keys) && WellFormed(a.st)
    requires doublePush ==> 0 <= Behind(a.st.sideToMove, target) < 64
    ensures Keeps(keys, a, EnPassantUpdate(keys, a, doublePush, target))
  {
    var st, r := a.st, EnPassantUpdate(keys, a, doublePush, target).st;
    var h, x := st.hashKey, EnPassantHash(keys, st.enPassantSquareIndex);
    var h1 := if st.enPassantSquareIndex != NO_SQUARE_INDEX then Xor(h, x) else h;
    assert h1 == Xor(h, x) by { XorZero(h); }
    var y := EnPassantHash(keys, r.enPassantSquareIndex);
    assert r.hashKey == Xor(h1, y) by { XorZero(h1); }
    EnPassantDrift(keys, st, r);
  }

  /** The castling rights' keys are swapped in the hash exactly as the rights change. */
  lemma CastlingRightsKeeps(keys: ZobristKeys, castleState: seq<bv4>, a: Applied, start: int, target: int)
    requires KeysShaped(keys) && WellFormed(a.st) && |castleState| == 64 && 0 <= start < 64 && 0 <= target < 64
    ensures Keeps(keys, a, CastlingRights(keys, castleState, a, start, target))
  {
    var st, r := a.st, CastlingRights(keys, castleState, a, start, target).st;
    var x, y := keys.castlingKeys[st.canCastle as int], keys.castlingKeys[r.canCastle as int];
    ReplaceSecond(EnPassantHash(keys, st.enPassantSquareIndex), x, SideHash(keys, st.sideToMove), y);
    DriftExtras(keys, st, r, x, y);
  }

  /** The occupancies take no part in the hash. */
  lemma OccupanciesDrift(keys: ZobristKeys, st: BoardState, occupancies: seq<Bitboard>)
    requires KeysShaped(keys) && WellFormed(st) && |occupancies| == 3
    ensures Drift(keys, st.(occupancies := occupancies)) == Drift(keys, st)
  {
    var st' := st.(occupancies := occupancies);
    assert ZobristHash(keys, st') == ZobristHash(keys, st) by {
      assert ExtrasHash(keys, st') == ExtrasHash(keys, st);
    }
  }

  /** While the piece steps pop and set only bits that change, the hash key keeps its drift. */
  lemma PiecesMovedKeeps(keys: ZobristKeys, st: BoardState, f: MoveFields)
    requires KeysShaped(keys) && WellFormed(st) && Playable(st, f)
    ensures Keeps(keys, Applied(st, true), PiecesMoved(keys, st, f))
  {
    var a0 := Applied(st, true);
    var a1 := MovePiece(keys, a0, f);
    MovePieceKeeps(keys, a0, f);
    var a2 := if f.capture then Capture(keys, a1, f.target, FirstVictim(st.sideToMove), LastVictim(st.sideToMove)) else a1;
    if f.capture { CaptureKeeps(keys, a1, f.target, FirstVictim(st.sideToMove), LastVictim(st.sideToMove)); }
    KeepsTrans(keys, a0, a1, a2);
    var a3 := if f.promoted != 0 then Promote(keys, a2, f.target, f.promoted) else a2;
    if f.promoted != 0 { PromoteKeeps(keys, a2, f.target, f.promoted); }
    KeepsTrans(keys, a0, a2, a3);
    var a4 := if f.enPassant then EnPassantCapture(keys, a3, f.target) else a3;
    if f.enPassant { EnPassantCaptureKeeps(keys, a3, f.target); }
    KeepsTrans(keys, a0, a3, a4);
  }

  /** While every pop and set before the legality test changes its bit, the hash key keeps its drift. */
  lemma PlayedKeeps(keys: ZobristKeys, castleState: seq<bv4>, st: BoardState, f: MoveFields)
    requires KeysShaped(keys) && |castleState| == 64 && WellFormed(st) && Playable(st, f)
    ensures Keeps(keys, Applied(st, true), Played(keys, castleState, st, f))
  {
    var a0 := Applied(st, true);
    var a4 := PiecesMoved(keys, st, f);
    PiecesMovedKeeps(keys, st, f);
    var a5 := EnPassantUpdate(keys, a4, f.doublePush, f.target);
    EnPassantUpdateKeeps(keys, a4, f.doublePush, f.target);
    KeepsTrans(keys, a0, a4, a5);
    var a6 := if f.castling then CastleRook(keys, a5, f.target) else a5;
    if f.castling { CastleRookKeeps(keys, a5, f.target); }
    KeepsTrans(keys, a0, a5, a6);
    var a7 := CastlingRights(keys, castleState, a6, f.start, f.target);
    CastlingRightsKeeps(keys, castleState, a6, f.start, f.target);
    KeepsTrans(keys, a0, a6, a7);
    OccupanciesDrift(keys, a7.st, BoardStates.Occupancies(a7.st.bitboards));
  }

  // ---------------------------------------------------------------------
  // What makeMove promises
  // ---------------------------------------------------------------------

  /** Flipping the side and XORing SIDE_KEY into the hash key keeps the drift. */
  lemma SideFlipDrift(keys: ZobristKeys, st: BoardState)
    requires KeysShaped(keys) && WellFormed(st)
    ensures var flipped := st.(sideToMove := Opponent(st.sideToMove), hashKey := Xor(st.hashKey, keys.sideKey));
      Drift(keys, flipped) == Drift(keys, st)
  {
    var flipped := st.(sideToMove := Opponent(st.sideToMove), hashKey := Xor(st.hashKey, keys.sideKey));
    var x, y := SideHash(keys, st.sideToMove), SideHash(keys, flipped.sideToMove);
    assert flipped.hashKey == Xor(Xor(st.hashKey, x), y) by {
      XorZero(st.hashKey);
      XorZero(Xor(st.hashKey, keys.sideKey));
    }
    ReplaceThird(EnPassantHash(keys, st.enPassantSquareIndex), keys.castlingKeys[st.canCastle as int], x, y);
    DriftExtras(keys, st, flipped, x, y);
  }

  /**
   * The legality gate: with a king on the board after the move, makeMove
   * rejects the move (answers 0) exactly when some enemy piece attacks that
   * king, and a rejected move leaves every field as it was except the hash
   * key, which keeps the keys XORed in by the move's steps.
   */
  lemma MakeMoveRejects(keys: ZobristKeys, castleState: seq<bv4>, attacks: AttackTable, st: BoardState, f: MoveFields)
    requires attacks.Ready() && KeysShaped(keys) && |castleState| == 64 && WellFormed(st) && Playable(st, f)
    requires KingBoard(Played(keys, castleState, st, f).st) != 0
    ensures var moved := Played(keys, castleState, st, f).st;
      var r := MakeMove(keys, castleState, attacks, st, f);
      r.Success? &&
      (r.value.made == 0 <==> AttackedBy(moved, LowestSquare(KingBoard(moved)), Opponent(st.sideToMove))) &&
      (r.value.made == 0 ==> r.value.after.st == st.(hashKey := moved.hashKey))
  {
    KingInCheckMeaning(attacks, Played(keys, castleState, st, f).st);
  }

  /**
   * A move makeMove accepts hands the turn to the other side, leaves an
   * en-passant square only behind a double push, never grants a castling
   * right, keeps the occupancies the union of the piece boards, and, when
   * every pop and set it made changed its bit, changes the hash key exactly
   * as a recomputation of the hash would change.
   */
  lemma MakeMoveAccepts(keys: ZobristKeys, castleState: seq<bv4>, attacks: AttackTable, st: BoardState, f: MoveFields)
    requires attacks.Valid() && KeysShaped(keys) && |castleState| == 64 && WellFormed(st) && Playable(st, f)
    requires MakeMove(keys, castleState, attacks, st, f).Success?
    requires MakeMove(keys, castleState, attacks, st, f).value.made == 1
    ensures var after := MakeMove(keys, castleState, attacks, st, f).value.after;
      after.st.sideToMove == Opponent(st.sideToMove) &&
      after.st.enPassantSquareIndex == (if f.doublePush then Behind(st.sideToMove, f.target) else NO_SQUARE_INDEX) &&
      after.st.canCastle & st.canCastle == after.st.canCastle &&
      after.st.occupancies == BoardStates.Occupancies(after.st.bitboards)
    ensures var after := MakeMove(keys, castleState, attacks, st, f).value.after;
      after.exact ==> Xor(after.st.hashKey, st.hashKey) == Xor(ZobristHash(keys, after.st), ZobristHash(keys, st))
  {
    var played := Played(keys, castleState, st, f);
    var after := MakeMove(keys, castleState, attacks, st, f).value.after;
    assert after.st == played.st.(sideToMove := Opponent(played.st.sideToMove), hashKey := Xor(played.st.hashKey, keys.sideKey));
    if after.exact {
      PlayedKeeps(keys, castleState, st, f);
      SideFlipDrift(keys, played.st);
      SameDrift(keys, st, after.st);
    }
  }
}
