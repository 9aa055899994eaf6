/**
 * What the search of class Position (main.cpp) is proved against.
 *
 * makeMove reads the hash key of the board it plays on but never decides
 * anything by it, so a move is accepted or rejected the same way whatever
 * word the key holds. This matters because a rejected move leaves its
 * keys in the word, and the search plays the next move on that board.
 *
 * Reach is the family of positions a search may visit. Every position in
 * it fits the 256-slot move buffer, and the family holds every position a
 * search step can produce from one of its members: the same position with
 * another hash word, the position after the null move, and the position
 * after an accepted move.
 *
 * PerftRun is perft on values, threading the board as the source does,
 * including the hash words that rejected moves leave behind.
 */
module SearchSpecs {
  import opened Wrappers
  import opened Bitboards
  import opened Geometry
  import opened MoveEncoding
  import opened MoveLists
  import opened AttackTables
  import opened BoardStates
  import opened Zobrist
  import opened MakeMoves
  import opened MoveGeneration
  import opened GeneratorProperties

  // ---------------------------------------------------------------------
  // The hash key decides nothing
  // ---------------------------------------------------------------------

  /** Two positions that differ at most in their hash words. */
  predicate SamePosition(x: BoardState, y: BoardState)
  {
    x.bitboards == y.bitboards && x.occupancies == y.occupancies && x.sideToMove == y.sideToMove &&
    x.enPassantSquareIndex == y.enPassantSquareIndex && x.canCastle == y.canCastle
  }

  /** Two intermediate boards of makeMove that differ at most in their hash words. */
  predicate Alike(a: Applied, b: Applied)
  {
    SamePosition(a.st, b.st) && a.exact == b.exact
  }

  lemma ToggleAlike(keys: ZobristKeys, a: Applied, b: Applied, p: int, s: int, put: bool)
    requires KeysShaped(keys) && WellFormed(a.st) && WellFormed(b.st) && 0 <= p < 12 && 0 <= s < 64 && Alike(a, b)
    ensures Alike(Toggle(keys, a, p, s, put), Toggle(keys, b, p, s, put))
  {
  }

  lemma MovePieceAlike(keys: ZobristKeys, a: Applied, b: Applied, f: MoveFields)
    requires KeysShaped(keys) && WellFormed(a.st) && WellFormed(b.st) && Playable(a.st, f) && Alike(a, b)
    ensures Playable(b.st, f) && Alike(MovePiece(keys, a, f), MovePiece(keys, b, f))
  {
    ToggleAlike(keys, a, b, f.piece, f.start, false);
    ToggleAlike(keys, Toggle(keys, a, f.piece, f.start, false), Toggle(keys, b, f.piece, f.start, false), f.piece, f.target, true);
  }

  lemma {:induction false} CaptureAlike(keys: ZobristKeys, a: Applied, b: Applied, target: int, from: int, last: int)
    requires KeysShaped(keys) && WellFormed(a.st) && WellFormed(b.st) && 0 <= target < 64 && 0 <= from && last < 12
    requires Alike(a, b)
    ensures Alike(Capture(keys, a, target, from, last), Capture(keys, b, target, from, last))
    decreases last + 1 - from
  {
    if from <= last {
      if Bit(a.st.bitboards[from], target) {
        ToggleAlike(keys, a, b, from, target, false);
      } else {
        CaptureAlike(keys, a, b, target, from + 1, last);
      }
    }
  }

  lemma PromoteAlike(keys: ZobristKeys, a: Applied, b: Applied, target: int, promoted: int)
    requires KeysShaped(keys) && WellFormed(a.st) && WellFormed(b.st) && 0 <= target < 64 && 0 <= promoted < 12 && Alike(a, b)
    ensures Alike(Promote(keys, a, target, promoted), Promote(keys, b, target, promoted))
  {
    var pawn := if a.st.sideToMove == WHITE then WHITE_PAWN else BLACK_PAWN;
    ToggleAlike(keys, a, b, pawn, target, false);
    ToggleAlike(keys, Toggle(keys, a, pawn, target, false), Toggle(keys, b, pawn, target, false), promoted, target, true);
  }

  lemma EnPassantCaptureAlike(keys: ZobristKeys, a: Applied, b: Applied, target: int)
    requires KeysShaped(keys) && WellFormed(a.st) && WellFormed(b.st) && 0 <= Behind(a.st.sideToMove, target) < 64 && Alike(a, b)
    ensures 0 <= Behind(b.st.sideToMove, target) < 64
    ensures Alike(EnPassantCapture(keys, a, target), EnPassantCapture(keys, b, target))
  {
    if a.st.sideToMove == WHITE {
      ToggleAlike(keys, a, b, BLACK_PAWN, target + 8, false);
    } else {
      ToggleAlike(keys, a, b, WHITE_PAWN, target - 8, false);
    }
  }

  lemma EnPassantUpdateAlike(keys: ZobristKeys, a: Applied, b: Applied, doublePush: bool, target: int)
    requires KeysShaped(keys) && WellFormed(a.st) && WellFormed(b.st) && Alike(a, b)
    requires doublePush ==> 0 <= Behind(a.st.sideToMove, target) < 64
    ensures doublePush ==> 0 <= Behind(b.st.sideToMove, target) < 64
    ensures Alike(EnPassantUpdate(keys, a, doublePush, target), EnPassantUpdate(keys, b, doublePush, target))
  {
  }

  lemma CastleRookAlike(keys: ZobristKeys, a: Applied, b: Applied, target: int)
    requires KeysShaped(keys) && WellFormed(a.st) && WellFormed(b.st) && Alike(a, b)
    ensures Alike(CastleRook(keys, a, target), CastleRook(keys, b, target))
  {
    var rook := if target == G1 || target == C1 then WHITE_ROOK else BLACK_ROOK;
    var from := if target == G1 then H1 else if target == C1 then A1 else if target == G8 then H8 else A8;
    var to := if target == G1 then F1 else if target == C1 then D1 else if target == G8 then F8 else D8;
    ToggleAlike(keys, a, b, rook, from, false);
    ToggleAlike(keys, Toggle(keys, a, rook, from, false), Toggle(keys, b, rook, from, false), rook, to, true);
  }

  lemma CastlingRightsAlike(keys: ZobristKeys, castleState: seq<bv4>, a: Applied, b: Applied, start: int, target: int)
    requires KeysShaped(keys) && WellFormed(a.st) && WellFormed(b.st) && |castleState| == 64 && 0 <= start < 64 && 0 <= target < 64
    requires Alike(a, b)
    ensures Alike(CastlingRights(keys, castleState, a, start, target), CastlingRights(keys, castleState, b, start, target))
  {
  }

  lemma PiecesMovedAlike(keys: ZobristKeys, st: BoardState, st': BoardState, f: MoveFields)
    requires KeysShaped(keys) && WellFormed(st) && WellFormed(st') && Playable(st, f) && SamePosition(st, st')
    ensures Playable(st', f) && Alike(PiecesMoved(keys, st, f), PiecesMoved(keys, st', f))
  {
    var a0, b0 := Applied(st, true), Applied(st', true);
    var a1, b1 := MovePiece(keys, a0, f), MovePiece(keys, b0, f);
    MovePieceAlike(keys, a0, b0, f);
    var first, last := FirstVictim(st.sideToMove), LastVictim(st.sideToMove);
    var a2 := if f.capture then Capture(keys, a1, f.target, first, last) else a1;
    var b2 := if f.capture then Capture(keys, b1, f.target, first, last) else b1;
    if f.capture { CaptureAlike(keys, a1, b1, f.target, first, last); }
    var a3 := if f.promoted != 0 then Promote(keys, a2, f.target, f.promoted) else a2;
    var b3 := if f.promoted != 0 then Promote(keys, b2, f.target, f.promoted) else b2;
    if f.promoted != 0 { PromoteAlike(keys, a2, b2, f.target, f.promoted); }
    if f.enPassant { EnPassantCaptureAlike(keys, a3, b3, f.target); }
  }

  lemma PlayedAlike(keys: ZobristKeys, castleState: seq<bv4>, st: BoardState, st': BoardState, f: MoveFields)
    requires KeysShaped(keys) && |castleState| == 64 && WellFormed(st) && WellFormed(st') && Playable(st, f)
    requires SamePosition(st, st')
    ensures Playable(st', f) && Alike(Played(keys, castleState, st, f), Played(keys, castleState, st', f))
  {
    var a4, b4 := PiecesMoved(keys, st, f), PiecesMoved(keys, st', f);
    PiecesMovedAlike(keys, st, st', f);
    var a5, b5 := EnPassantUpdate(keys, a4, f.doublePush, f.target), EnPassantUpdate(keys, b4, f.doublePush, f.target);
    EnPassantUpdateAlike(keys, a4, b4, f.doublePush, f.target);
    var a6 := if f.castling then CastleRook(keys, a5, f.target) else a5;
    var b6 := if f.castling then CastleRook(keys, b5, f.target) else b5;
    if f.castling { CastleRookAlike(keys, a5, b5, f.target); }
    CastlingRightsAlike(keys, castleState, a6, b6, f.start, f.target);
  }

  // ---------------------------------------------------------------------
  // makeMove with its check test read as what it means
  // ---------------------------------------------------------------------

  /**
   * isKingInCheck read as its meaning: without a king of the side to move
   * getLS1BIndex fails; otherwise, whether an enemy piece attacks it.
   */
  ghost function InCheck(st: BoardState): (r: Result<bool>)
    requires WellFormed(st)
    ensures r.Failure? <==> KingBoard(st) == 0
  {
    var king := KingBoard(st);
    if king == 0 then Failure(LSBOfEmptyBitboard)
    else Success(AttackedBy(st, LowestSquare(king), Opponent(st.sideToMove)))
  }

  /** With its tables built, the check test answers InCheck. */
  lemma KingInCheckIsInCheck(attacks: AttackTable, st: BoardState)
    requires attacks.Ready() && WellFormed(st)
    ensures KingInCheck(attacks, st) == InCheck(st)
  {
    if KingBoard(st) != 0 {
      KingInCheckMeaning(attacks, st);
    }
  }

  /** The end of an accepted makeMove: the side flipped and SIDE_KEY XORed into the hash word. */
  function Flip(keys: ZobristKeys, moved: BoardState): BoardState
  {
    moved.(sideToMove := Opponent(moved.sideToMove), hashKey := Xor(moved.hashKey, keys.sideKey))
  }

  /** The position makeMove leaves when it accepts a move. */
  function Accepted(keys: ZobristKeys, castleState: seq<bv4>, st: BoardState, f: MoveFields): BoardState
    requires KeysShaped(keys) && |castleState| == 64 && WellFormed(st) && Playable(st, f)
  {
    Flip(keys, Played(keys, castleState, st, f).st)
  }

  /**
   * The end of makeMove on the board `played` left: the check test, then
   * either `st` copied back with the hash word kept (answer 0) or the move
   * accepted (answer 1).
   */
  ghost function Concluded(keys: ZobristKeys, st: BoardState, played: Applied): (r: Result<Outcome>)
    requires WellFormed(st) && WellFormed(played.st) && played.st.sideToMove == st.sideToMove
    ensures r.Failure? <==> KingBoard(played.st) == 0
    ensures r.Success? ==> WellFormed(r.value.after.st) && SamePosition(r.value.after.st, st) == (r.value.made == 0)
  {
    var check := InCheck(played.st);
    if check.Failure? then Failure(check.error)
    else if check.value then Success(Outcome(0, Applied(st.(hashKey := played.st.hashKey), played.exact)))
    else Success(Outcome(1, Applied(Flip(keys, played.st), played.exact)))
  }

  /** makeMove with its check test read as InCheck. The search is stated over this. */
  ghost function Verdict(keys: ZobristKeys, castleState: seq<bv4>, st: BoardState, f: MoveFields): (r: Result<Outcome>)
    requires KeysShaped(keys) && |castleState| == 64 && WellFormed(st) && Playable(st, f)
    ensures r.Failure? <==> KingBoard(Played(keys, castleState, st, f).st) == 0
    ensures r.Success? ==> WellFormed(r.value.after.st) && SamePosition(r.value.after.st, st) == (r.value.made == 0)
  {
    Concluded(keys, st, Played(keys, castleState, st, f))
  }

  /** With its tables built, makeMove answers Verdict. */
  lemma MakeMoveIsVerdict(keys: ZobristKeys, castleState: seq<bv4>, attacks: AttackTable, st: BoardState, f: MoveFields)
    requires attacks.Ready() && KeysShaped(keys) && |castleState| == 64 && WellFormed(st) && Playable(st, f)
    ensures MakeMove(keys, castleState, attacks, st, f) == Verdict(keys, castleState, st, f)
  {
    KingInCheckIsInCheck(attacks, Played(keys, castleState, st, f).st);
  }

  /** The check test reads no hash word. */
  lemma InCheckIgnoresHash(x: BoardState, y: BoardState)
    requires WellFormed(x) && WellFormed(y) && SamePosition(x, y)
    ensures InCheck(x) == InCheck(y)
  {
    assert x.bitboards == y.bitboards && x.occupancies == y.occupancies && x.sideToMove == y.sideToMove;
  }

  /** The end of makeMove decides alike on boards alike. */
  lemma ConcludedAlike(keys: ZobristKeys, st: BoardState, st': BoardState, p: Applied, p': Applied)
    requires WellFormed(st) && WellFormed(p.st) && p.st.sideToMove == st.sideToMove
    requires WellFormed(st') && WellFormed(p'.st) && p'.st.sideToMove == st'.sideToMove
    requires SamePosition(st, st') && Alike(p, p')
    ensures var r, r' := Concluded(keys, st, p), Concluded(keys, st', p');
      r.Success? == r'.Success? &&
      (r.Success? ==> r.value.made == r'.value.made && Alike(r.value.after, r'.value.after))
  {
    InCheckIgnoresHash(p.st, p'.st);
  }

  /**
   * makeMove decides a move the same way whatever word the hash key holds,
   * and leaves the same position behind, up to the hash word.
   */
  lemma VerdictIgnoresHash(keys: ZobristKeys, castleState: seq<bv4>, st: BoardState, st': BoardState, f: MoveFields)
    requires KeysShaped(keys) && |castleState| == 64 && WellFormed(st) && WellFormed(st') && Playable(st, f)
    requires SamePosition(st, st')
    ensures Playable(st', f)
    ensures var r, r' := Verdict(keys, castleState, st, f), Verdict(keys, castleState, st', f);
      r.Success? == r'.Success? &&
      (r.Success? ==> r.value.made == r'.value.made && Alike(r.value.after, r'.value.after))
  {
    PlayedAlike(keys, castleState, st, st', f);
    ConcludedAlike(keys, st, st', Played(keys, castleState, st, f), Played(keys, castleState, st', f));
  }

  // ---------------------------------------------------------------------
  // The game the search plays
  // ---------------------------------------------------------------------

  /**
   * What the search plays moves with: the key tables, the castling-rights
   * table, a function that answers as makeMove does, one that lists the
   * moves as generateMoves does and one that answers as isKingInCheck
   * does. The search is stated over these functions, so that a proof about
   * the search does not have to look inside makeMove, generateMoves or the
   * check test.
   */
  datatype Game = Game(keys: ZobristKeys, castleState: seq<bv4>, play: (BoardState, MoveFields) -> Result<Outcome>,
                       generate: BoardState -> seq<Move>, check: BoardState -> Result<bool>)

  /**
   * play answers as makeMove does, on every board and move makeMove may be
   * handed, generate lists what generateMoves emits and check answers as
   * the check test does, on every board.
   */
  ghost predicate Sound(g: Game)
  {
    KeysShaped(g.keys) && |g.castleState| == 64 &&
    (forall st, f {:trigger Verdict(g.keys, g.castleState, st, f)} ::
       WellFormed(st) && Playable(st, f) ==> g.play(st, f) == Verdict(g.keys, g.castleState, st, f)) &&
    (forall st {:trigger Generated(st)} :: WellFormed(st) ==> g.generate(st) == Generated(st)) &&
    (forall st {:trigger InCheck(st)} :: WellFormed(st) ==> g.check(st) == InCheck(st))
  }

  /** The game whose play is makeMove with the given tables. */
  ghost function MakeMoveGame(keys: ZobristKeys, castleState: seq<bv4>): (g: Game)
    requires KeysShaped(keys) && |castleState| == 64
    ensures Sound(g) && g.keys == keys && g.castleState == castleState
  {
    Game(keys, castleState,
         (st, f) => if WellFormed(st) && Playable(st, f) then Verdict(keys, castleState, st, f) else Failure(LSBOfEmptyBitboard),
         st => if WellFormed(st) then Generated(st) else [],
         st => if WellFormed(st) then InCheck(st) else Failure(LSBOfEmptyBitboard))
  }

  /** What play answers: 0 with the position copied back, up to the hash word, or 1 with another position. */
  lemma PlayAnswers(g: Game, st: BoardState, f: MoveFields)
    requires Sound(g) && WellFormed(st) && Playable(st, f)
    ensures var r := g.play(st, f);
      r.Success? ==> (r.value.made == 0 || r.value.made == 1) && WellFormed(r.value.after.st) &&
                     SamePosition(r.value.after.st, st) == (r.value.made == 0)
  {
    assert g.play(st, f) == Verdict(g.keys, g.castleState, st, f);
  }

  /** With its tables built, makeMove answers as a sound game's play does. */
  lemma PlayIsMakeMove(g: Game, attacks: AttackTable, st: BoardState, f: MoveFields)
    requires attacks.Ready() && Sound(g) && WellFormed(st) && Playable(st, f)
    ensures g.play(st, f) == MakeMove(g.keys, g.castleState, attacks, st, f)
  {
    MakeMoveIsVerdict(g.keys, g.castleState, attacks, st, f);
    assert g.play(st, f) == Verdict(g.keys, g.castleState, st, f);
  }

  /** play fails exactly when the move leaves the mover without a king, where the check test throws. */
  lemma PlayFailsWithoutKing(g: Game, st: BoardState, f: MoveFields)
    requires Sound(g) && WellFormed(st) && Playable(st, f)
    ensures g.play(st, f).Failure? <==> KingBoard(Played(g.keys, g.castleState, st, f).st) == 0
  {
    assert g.play(st, f) == Verdict(g.keys, g.castleState, st, f);
  }

  /** play, like makeMove, decides the same way whatever word the hash key holds. */
  lemma PlayIgnoresHash(g: Game, st: BoardState, st': BoardState, f: MoveFields)
    requires Sound(g) && WellFormed(st) && WellFormed(st') && Playable(st, f) && SamePosition(st, st')
    ensures Playable(st', f)
    ensures var r, r' := g.play(st, f), g.play(st', f);
      r.Success? == r'.Success? &&
      (r.Success? ==> r.value.made == r'.value.made && Alike(r.value.after, r'.value.after))
  {
    VerdictIgnoresHash(g.keys, g.castleState, st, st', f);
    assert g.play(st, f) == Verdict(g.keys, g.castleState, st, f);
    assert g.play(st', f) == Verdict(g.keys, g.castleState, st', f);
  }


  // ---------------------------------------------------------------------
  // Generated moves are playable
  // ---------------------------------------------------------------------

  /** A sound pawn move promotes to one of the twelve pieces and lands in front of a square on the board. */
  lemma PawnPlayable(st: BoardState, m: Move)
    requires WellFormed(st) && PawnMoveSound(st, m)
    ensures GetPromotedPiece(m) < 12
    ensures IsEnPassant(m) || IsDoublePawnPush(m) ==> 0 <= Behind(st.sideToMove, GetTargetSquareIndex(m)) < 64
  {
    var side, start, target := st.sideToMove, GetStartSquareIndex(m), GetTargetSquareIndex(m);
    if IsEnPassant(m) {
      assert target in PawnAttackSet(side, start);
      if side == WHITE {
        StepMembers(start, -1, 1, target);
        StepMembers(start, -1, -1, target);
      } else {
        StepMembers(start, 1, 1, target);
        StepMembers(start, 1, -1, target);
      }
    }
  }

  /** A sound move meets what makeMove demands of a move. */
  lemma SoundPlayable(st: BoardState, m: Move)
    requires WellFormed(st) && MoveSound(st, m)
    ensures Playable(st, Fields(m))
  {
    if IsCastling(m) {
      assert CastleSound(st, m);
    } else if KindOf(GetPiece(m)) == PAWN {
      PawnPlayable(st, m);
    } else {
      assert PieceMoveSound(st, m);
    }
  }

  /** Every move generateMoves emits meets what makeMove demands of a move. */
  lemma GeneratedPlayable(st: BoardState)
    requires WellFormed(st)
    ensures forall m :: m in Generated(st) ==> Playable(st, Fields(m))
  {
    GeneratedSound(st);
    forall m | m in Generated(st)
      ensures Playable(st, Fields(m))
    {
      SoundPlayable(st, m);
    }
  }

  /** A sound game lists the moves generateMoves emits. */
  lemma GameMoves(g: Game, st: BoardState)
    requires Sound(g) && WellFormed(st)
    ensures g.generate(st) == Generated(st)
  {
  }

  /** A sound game's check test is isKingInCheck's, and like it reads no hash word. */
  lemma GameCheck(g: Game, attacks: AttackTable, st: BoardState, st': BoardState)
    requires Sound(g) && attacks.Ready() && WellFormed(st) && WellFormed(st') && SamePosition(st, st')
    ensures g.check(st) == KingInCheck(attacks, st) && g.check(st) == g.check(st')
  {
    KingInCheckIsInCheck(attacks, st);
    InCheckIgnoresHash(st, st');
    assert g.check(st) == InCheck(st) && g.check(st') == InCheck(st');
  }

  /** Every move a sound game lists may be handed to makeMove. */
  lemma MovesPlayable(g: Game, st: BoardState)
    requires Sound(g) && WellFormed(st)
    ensures forall m :: m in g.generate(st) ==> Playable(st, Fields(m))
  {
    GameMoves(g, st);
    GeneratedPlayable(st);
  }

  // ---------------------------------------------------------------------
  // What a search step leaves on the board
  // ---------------------------------------------------------------------

  /** The null move of negamax: the side flips and the en-passant square is cleared; the hash key is left alone. */
  function NullMove(st: BoardState): BoardState
  {
    st.(sideToMove := Opponent(st.sideToMove), enPassantSquareIndex := NO_SQUARE_INDEX)
  }

  /** A position with its hash word cleared: what the family of reachable positions is kept as. */
  function Unhashed(st: BoardState): BoardState
  {
    st.(hashKey := 0)
  }

  /**
   * The positions a search may visit, kept without their hash words. Each
   * fits the move buffer, and with each the family holds the position after
   * the null move and after any generated move makeMove accepts.
   */
  ghost predicate Closed(g: Game, reach: iset<BoardState>)
  {
    Sound(g) &&
    (forall st :: Unhashed(st) in reach ==> WellFormed(st) && |g.generate(st)| <= CAPACITY) &&
    (forall st {:trigger NullMove(st)} :: Unhashed(st) in reach ==> Unhashed(NullMove(st)) in reach) &&
    (forall st, m {:trigger Accepted(g.keys, g.castleState, st, Fields(m))} ::
       Unhashed(st) in reach && WellFormed(st) && m in g.generate(st) && Playable(st, Fields(m)) ==>
       Unhashed(Accepted(g.keys, g.castleState, st, Fields(m))) in reach)
  }

  /** makeMove's end either copies st back, up to the hash word, or flips the board the move left. */
  lemma ConcludedOutcome(keys: ZobristKeys, st: BoardState, p: Applied)
    requires WellFormed(st) && WellFormed(p.st) && p.st.sideToMove == st.sideToMove
    ensures var r := Concluded(keys, st, p);
      r.Success? ==> (r.value.made == 0 && Unhashed(r.value.after.st) == Unhashed(st)) ||
                     (r.value.made == 1 && r.value.after.st == Flip(keys, p.st))
  {
  }

  /** Flipping boards alike gives boards alike. */
  lemma FlipAlike(keys: ZobristKeys, x: BoardState, y: BoardState)
    requires SamePosition(x, y)
    ensures Unhashed(Flip(keys, x)) == Unhashed(Flip(keys, y))
  {
  }

  /**
   * A move generated in a position of the family, played on that position
   * under any hash word, stays in the family whichever way makeMove answers.
   */
  lemma StaysInReach(g: Game, reach: iset<BoardState>, st: BoardState, current: BoardState, m: Move)
    requires Closed(g, reach) && Unhashed(st) in reach && SamePosition(current, st)
    requires WellFormed(st) && m in g.generate(st)
    ensures Unhashed(current) in reach && WellFormed(current) && Playable(current, Fields(m))
    ensures var r := g.play(current, Fields(m));
      r.Success? ==> Unhashed(r.value.after.st) in reach
  {
    assert Unhashed(current) == Unhashed(st);
    MovesPlayable(g, st);
    var f, keys, castleState := Fields(m), g.keys, g.castleState;
    PlayedAlike(keys, castleState, st, current, f);
    var p, p' := Played(keys, castleState, st, f), Played(keys, castleState, current, f);
    ConcludedOutcome(keys, current, p');
    assert g.play(current, f) == Verdict(keys, castleState, current, f);
    assert Unhashed(Accepted(keys, castleState, st, f)) in reach;
    FlipAlike(keys, p.st, p'.st);
  }



  // ---------------------------------------------------------------------
  // perft on values
  // ---------------------------------------------------------------------

  /** What perft counts, and the board it leaves behind. */
  datatype Tally = Tally(nodes: nat, last: BoardState)

  /**
   * perft(depth): 1 at depth 0; otherwise the generated moves in order,
   * each played on the board the previous one left.
   */
  ghost function PerftRun(g: Game, st: BoardState, depth: nat): (r: Result<Tally>)
    requires Sound(g) && WellFormed(st)
    ensures r.Success? ==> WellFormed(r.value.last) && SamePosition(r.value.last, st)
    decreases depth, 2, 0
  {
    if depth == 0 then Success(Tally(1, st))
    else
      MovesPlayable(g, st);
      PerftLoop(g, st, g.generate(st), depth)
  }

  /** makeMove may be handed every one of the moves on st. */
  predicate AllPlayable(st: BoardState, moves: seq<Move>)
  {
    forall m :: m in moves ==> Playable(st, Fields(m))
  }

  /** The loop of perft over the first |moves| moves, folded from the front. */
  ghost function PerftLoop(g: Game, st: BoardState, moves: seq<Move>, depth: nat): (r: Result<Tally>)
    requires Sound(g) && WellFormed(st) && depth >= 1
    requires AllPlayable(st, moves)
    ensures r.Success? ==> WellFormed(r.value.last) && SamePosition(r.value.last, st)
    decreases depth, 1, |moves|
  {
    if moves == [] then Success(Tally(0, st))
    else
      var last := moves[|moves| - 1];
      assert last in moves && Playable(st, Fields(last));
      PerftContinue(g, PerftLoop(g, st, moves[..|moves| - 1], depth), last, depth)
  }

  /** The loop goes on to the next move only while no makeMove has failed. */
  ghost function PerftContinue(g: Game, before: Result<Tally>, m: Move, depth: nat): (r: Result<Tally>)
    requires Sound(g) && depth >= 1
    requires before.Success? ==> WellFormed(before.value.last) && Playable(before.value.last, Fields(m))
    ensures r.Success? ==> before.Success? && WellFormed(r.value.last) && SamePosition(r.value.last, before.value.last)
    ensures before.Failure? ==> r == before
    decreases depth, 0, 1
  {
    if before.Failure? then before
    else PerftStep(g, before.value, m, depth)
  }

  /**
   * One pass of perft's loop on the board t.last: a rejected move leaves
   * its hash word behind; an accepted one adds perft(depth - 1) of the
   * position it leads to, and the board is copied back.
   */
  ghost function PerftStep(g: Game, t: Tally, m: Move, depth: nat): (r: Result<Tally>)
    requires Sound(g) && WellFormed(t.last) && depth >= 1
    requires Playable(t.last, Fields(m))
    ensures r.Success? ==> WellFormed(r.value.last) && SamePosition(r.value.last, t.last)
    decreases depth, 0, 0
  {
    PlayAnswers(g, t.last, Fields(m));
    var r := g.play(t.last, Fields(m));
    if r.Failure? then Failure(r.error)
    else if r.value.made == 0 then Success(Tally(t.nodes, r.value.after.st))
    else
      var sub := PerftRun(g, r.value.after.st, depth - 1);
      if sub.Failure? then sub
      else Success(Tally(t.nodes + sub.value.nodes, t.last))
  }

  /** Once a makeMove in perft's loop fails, the rest of the loop is not run and the failure is perft's answer. */
  lemma {:induction false} PerftFailureSticks(g: Game, st: BoardState,
                                              moves: seq<Move>, extra: seq<Move>, depth: nat)
    requires Sound(g) && WellFormed(st) && depth >= 1
    requires AllPlayable(st, moves + extra)
    requires PerftLoop(g, st, moves, depth).Failure?
    ensures PerftLoop(g, st, moves + extra, depth) == PerftLoop(g, st, moves, depth)
    decreases |extra|
  {
    if extra != [] {
      var all := moves + extra;
      var shorter := extra[..|extra| - 1];
      assert all[..|all| - 1] == moves + shorter;
      assert all[|all| - 1] in all;
      PerftFailureSticks(g, st, moves, shorter, depth);
    } else {
      assert moves + extra == moves;
    }
  }

  /** perft's loop over one more move goes on from where the loop over the moves before it left off. */
  lemma PerftLoopNext(g: Game, st: BoardState, moves: seq<Move>, i: nat, depth: nat)
    requires Sound(g) && WellFormed(st) && depth >= 1 && i < |moves| && AllPlayable(st, moves)
    ensures AllPlayable(st, moves[..i]) && AllPlayable(st, moves[..i + 1])
    ensures var before := PerftLoop(g, st, moves[..i], depth);
      (before.Success? ==> Playable(before.value.last, Fields(moves[i]))) &&
      PerftLoop(g, st, moves[..i + 1], depth) == PerftContinue(g, before, moves[i], depth)
  {
    assert moves[i] in moves;
    assert moves[..i + 1][..i] == moves[..i];
  }

  /** When perft's loop fails at the move at index i, the failure is the whole loop's answer. */
  lemma PerftFailsAt(g: Game, st: BoardState, moves: seq<Move>, i: nat, depth: nat)
    requires Sound(g) && WellFormed(st) && depth >= 1 && i < |moves|
    requires AllPlayable(st, moves)
    requires PerftLoop(g, st, moves[..i + 1], depth).Failure?
    ensures PerftLoop(g, st, moves, depth) == PerftLoop(g, st, moves[..i + 1], depth)
  {
    assert moves[..i + 1] + moves[i + 1..] == moves;
    PerftFailureSticks(g, st, moves[..i + 1], moves[i + 1..], depth);
  }

  /** How many of the moves makeMove accepts when each is played on st. */
  ghost function Accepts(g: Game, st: BoardState, moves: seq<Move>): nat
    requires Sound(g) && WellFormed(st)
    requires AllPlayable(st, moves)
  {
    if moves == [] then 0
    else
      var last := moves[|moves| - 1];
      assert last in moves;
      Accepts(g, st, moves[..|moves| - 1]) + Judged(g, st, Fields(last))
  }

  /** 1 when makeMove accepts the move on st, 0 when it rejects it or fails. */
  ghost function Judged(g: Game, st: BoardState, f: MoveFields): nat
    requires Sound(g) && WellFormed(st) && Playable(st, f)
  {
    var r := g.play(st, f);
    if r.Success? && r.value.made == 1 then 1 else 0
  }

  /**
   * At depth one perft's loop counts the moves makeMove accepts, although
   * each is played on the board the rejected ones before it left behind.
   */
  lemma {:induction false} PerftLoopDepthOne(g: Game, st: BoardState, moves: seq<Move>)
    requires Sound(g) && WellFormed(st)
    requires AllPlayable(st, moves)
    ensures var r := PerftLoop(g, st, moves, 1);
      r.Success? ==> r.value.nodes == Accepts(g, st, moves)
  {
    if moves != [] {
      var last := moves[|moves| - 1];
      var prefix := moves[..|moves| - 1];
      assert last in moves;
      PerftLoopDepthOne(g, st, prefix);
      var before := PerftLoop(g, st, prefix, 1);
      if before.Success? {
        var t := before.value;
        PerftStepOnDrift(g, st, t, moves);
        assert PerftLoop(g, st, moves, 1) == PerftStep(g, t, last, 1);
      }
    }
  }

  /** Whether makeMove accepts a move does not depend on the hash word. */
  lemma JudgedIgnoresHash(g: Game, st: BoardState, st': BoardState, f: MoveFields)
    requires Sound(g) && WellFormed(st) && WellFormed(st') && Playable(st, f)
    requires SamePosition(st, st')
    ensures Playable(st', f)
    ensures Judged(g, st, f) == Judged(g, st', f)
  {
    PlayIgnoresHash(g, st, st', f);
  }

  /** At depth one a pass of the loop adds 1 for an accepted move and 0 for a rejected one. */
  lemma PerftStepDepthOne(g: Game, t: Tally, m: Move)
    requires Sound(g) && WellFormed(t.last) && Playable(t.last, Fields(m))
    ensures var r, s := g.play(t.last, Fields(m)), PerftStep(g, t, m, 1);
      s.Success? == r.Success? && (s.Success? ==> s.value.nodes == t.nodes + Judged(g, t.last, Fields(m)))
  {
    PlayAnswers(g, t.last, Fields(m));
    var r := g.play(t.last, Fields(m));
    if r.Success? && r.value.made == 1 {
      assert PerftRun(g, r.value.after.st, 0) == Success(Tally(1, r.value.after.st));
    }
  }

  /**
   * At depth one the pass of the loop for the last of the moves, on a board
   * that differs from st only in its hash word, adds what Accepts adds for
   * that move on st itself.
   */
  lemma PerftStepOnDrift(g: Game, st: BoardState, t: Tally, moves: seq<Move>)
    requires Sound(g) && WellFormed(st) && WellFormed(t.last)
    requires moves != [] && AllPlayable(st, moves) && SamePosition(st, t.last)
    ensures Playable(t.last, Fields(moves[|moves| - 1]))
    ensures var s := PerftStep(g, t, moves[|moves| - 1], 1);
      s.Success? ==>
        s.value.nodes - t.nodes == Accepts(g, st, moves) - Accepts(g, st, moves[..|moves| - 1])
  {
    var m := moves[|moves| - 1];
    assert m in moves;
    var f := Fields(m);
    assert Accepts(g, st, moves) - Accepts(g, st, moves[..|moves| - 1])
        == Judged(g, st, f);
    JudgedIgnoresHash(g, st, t.last, f);
    PerftStepDepthOne(g, t, m);
  }

  /** perft(1) is the number of legal moves: the generated moves makeMove accepts. */
  lemma PerftDepthOne(g: Game, st: BoardState)
    requires Sound(g) && WellFormed(st)
    ensures forall m :: m in Generated(st) ==> Playable(st, Fields(m))
    ensures var r := PerftRun(g, st, 1);
      r.Success? ==> r.value.nodes == Accepts(g, st, Generated(st))
  {
    GeneratedPlayable(st);
    GameMoves(g, st);
    PerftLoopDepthOne(g, st, Generated(st));
  }
}
