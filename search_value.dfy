/**
 * The values the search of class Position (main.cpp) computes, stated
 * without a window, an order of moves or a hash word.
 *
 * QValue is the capture-only search quiescence performs: the static
 * evaluation stands as a lower bound ("stand pat"), and every capture
 * makeMove accepts may raise it to the negated value of the position it
 * leads to. Quiescence with a window [alpha, beta] returns QValue pulled
 * into that window (fail-hard), whatever order its sort put the moves in
 * and whatever word the hash key holds.
 *
 * The recursion of quiescence has no depth bound of its own; QValue takes
 * the number of plies left below MAX_SEARCH_DEPTH and stands pat when none
 * is left.
 */
module SearchValues {
  import opened Wrappers
  import opened Bitboards
  import opened Geometry
  import opened MoveEncoding
  import opened BoardStates
  import opened Evaluations
  import opened MakeMoves
  import opened MoveGeneration
  import opened SearchSpecs
  import opened MoveOrdering

  // ---------------------------------------------------------------------
  // generateMoves reads no hash word
  // ---------------------------------------------------------------------

  lemma {:induction false} PieceMovesIgnoreHash(st: BoardState, st': BoardState, piece: int, starts: seq<Square>)
    requires WellFormed(st) && WellFormed(st') && SamePosition(st, st') && 0 <= piece < 12
    ensures PieceMovesOf(st, piece, starts) == PieceMovesOf(st', piece, starts)
    decreases |starts|
  {
    if starts != [] {
      PieceMovesIgnoreHash(st, st', piece, starts[1..]);
      assert PieceTargets(st, piece, starts[0]) == PieceTargets(st', piece, starts[0]);
    }
  }

  lemma PawnFromIgnoresHash(st: BoardState, st': BoardState, side: int, start: int)
    requires WellFormed(st) && WellFormed(st') && SamePosition(st, st') && (side == WHITE || side == BLACK) && 0 <= start < 64
    ensures PawnMovesFrom(st, side, start) == PawnMovesFrom(st', side, start)
  {
    assert st.occupancies == st'.occupancies && st.enPassantSquareIndex == st'.enPassantSquareIndex;
  }

  lemma {:induction false} PawnMovesIgnoreHash(st: BoardState, st': BoardState, side: int, starts: seq<Square>)
    requires WellFormed(st) && WellFormed(st') && SamePosition(st, st') && (side == WHITE || side == BLACK)
    ensures PawnMovesOf(st, side, starts) == PawnMovesOf(st', side, starts)
    decreases |starts|
  {
    if starts != [] {
      PawnMovesIgnoreHash(st, st', side, starts[1..]);
      PawnFromIgnoresHash(st, st', side, starts[0]);
    }
  }

  lemma CastlesIgnoreHash(st: BoardState, st': BoardState)
    requires WellFormed(st) && WellFormed(st') && SamePosition(st, st')
    ensures CastleKingSide(st) == CastleKingSide(st') && CastleQueenSide(st) == CastleQueenSide(st')
  {
    assert st.bitboards == st'.bitboards && st.occupancies == st'.occupancies && st.sideToMove == st'.sideToMove;
  }

  lemma SectionIgnoresHash(st: BoardState, st': BoardState, piece: int)
    requires WellFormed(st) && WellFormed(st') && SamePosition(st, st') && 0 <= piece < 12
    ensures Section(st, piece) == Section(st', piece)
  {
    var starts := Ascending(Squares(st.bitboards[piece]), 0);
    PawnMovesIgnoreHash(st, st', st.sideToMove, starts);
    PieceMovesIgnoreHash(st, st', piece, starts);
    CastlesIgnoreHash(st, st');
  }

  lemma {:induction false} SectionsIgnoreHash(st: BoardState, st': BoardState, n: int)
    requires WellFormed(st) && WellFormed(st') && SamePosition(st, st') && 0 <= n <= 12
    ensures SectionsBelow(st, n) == SectionsBelow(st', n)
  {
    if n > 0 {
      SectionsIgnoreHash(st, st', n - 1);
      SectionIgnoresHash(st, st', n - 1);
    }
  }

  /** generateMoves emits the same list whatever word the hash key holds. */
  lemma GeneratedIgnoresHash(st: BoardState, st': BoardState)
    requires WellFormed(st) && WellFormed(st') && SamePosition(st, st')
    ensures Generated(st) == Generated(st')
  {
    SectionsIgnoreHash(st, st', 12);
  }

  /** So does the list of a sound game. */
  lemma MovesIgnoreHash(g: Game, st: BoardState, st': BoardState)
    requires Sound(g) && WellFormed(st) && WellFormed(st') && SamePosition(st, st')
    ensures g.generate(st) == g.generate(st')
  {
    GameMoves(g, st);
    GameMoves(g, st');
    GeneratedIgnoresHash(st, st');
  }

  // ---------------------------------------------------------------------
  // The window
  // ---------------------------------------------------------------------

  /** A score pulled into the window [lo, hi], as a fail-hard search returns it. */
  function Clamp(x: int, lo: int, hi: int): (r: int)
    requires lo <= hi
    ensures lo <= r <= hi
    ensures r == x || (r == lo && x < lo) || (r == hi && x > hi)
  {
    if x < lo then lo else if x > hi then hi else x
  }

  function Max(x: int, y: int): int
  {
    if x >= y then x else y
  }

  /** Two results that agree on success and, when they succeed, on the value. */
  predicate SameResult<T(==)>(a: Result<T>, b: Result<T>)
  {
    a.Success? == b.Success? && (a.Success? ==> a.value == b.value)
  }

  // ---------------------------------------------------------------------
  // Quiescence on values
  // ---------------------------------------------------------------------

  /** What one generated move adds to quiescence: nothing, or the score of the capture for the side that plays it. */
  datatype Reply = Skipped | Scored(score: int)

  /**
   * A quiet move is skipped; a capture makeMove rejects is skipped; an
   * accepted capture scores the negated value of the position it leads to.
   */
  ghost function CaptureValue(g: Game, t: EvalTables, st: BoardState, m: Move, left: nat): (r: Result<Reply>)
    requires Sound(g) && TablesShaped(t) && WellFormed(st) && Playable(st, Fields(m)) && left >= 1
    decreases left, 0, 0
  {
    if !IsCapture(m) then Success(Skipped)
    else
      PlayAnswers(g, st, Fields(m));
      var v := g.play(st, Fields(m));
      if v.Failure? then Failure(v.error)
      else if v.value.made == 0 then Success(Skipped)
      else
        var q := QValue(g, t, v.value.after.st, left - 1);
        if q.Failure? then Failure(q.error) else Success(Scored(-q.value))
  }

  /** The best so far raised by one more reply; a failure stops everything. */
  function Raise(best: Result<int>, reply: Result<Reply>): Result<int>
  {
    if best.Failure? then best
    else if reply.Failure? then Failure(reply.error)
    else if reply.value.Skipped? then best
    else Success(Max(best.value, reply.value.score))
  }

  /** Stand pat raised by the replies to the moves, in order. */
  ghost function Best(g: Game, t: EvalTables, st: BoardState, moves: seq<Move>, left: nat): Result<int>
    requires Sound(g) && TablesShaped(t) && WellFormed(st) && AllPlayable(st, moves) && left >= 1
    decreases left, 1, |moves|
  {
    if moves == [] then Success(Evaluation(t, st))
    else
      var last := moves[|moves| - 1];
      assert last in moves;
      Raise(Best(g, t, st, moves[..|moves| - 1], left), CaptureValue(g, t, st, last, left))
  }

  /**
   * The value of the capture search from st with `left` plies to go before
   * the end of the ply tables: stand pat when none is left, where the
   * program keeps searching past the tables (SearchPlies).
   */
  ghost function QValue(g: Game, t: EvalTables, st: BoardState, left: nat): Result<int>
    requires Sound(g) && TablesShaped(t) && WellFormed(st)
    decreases left, 2, 0
  {
    if left == 0 then Success(Evaluation(t, st))
    else
      MovesPlayable(g, st);
      Best(g, t, st, g.generate(st), left)
  }

  /**
   * The fold means a maximum: it succeeds exactly when every reply does,
   * and then it is the static evaluation or the score of some reply,
   * whichever is the greatest.
   */
  lemma {:induction false} BestMeaning(g: Game, t: EvalTables, st: BoardState, moves: seq<Move>, left: nat)
    requires Sound(g) && TablesShaped(t) && WellFormed(st) && AllPlayable(st, moves) && left >= 1
    ensures var b := Best(g, t, st, moves, left);
      (b.Success? <==> forall m :: m in moves ==> CaptureValue(g, t, st, m, left).Success?) &&
      (b.Success? ==>
         b.value >= Evaluation(t, st) &&
         (forall m :: m in moves && CaptureValue(g, t, st, m, left).value.Scored? ==>
            b.value >= CaptureValue(g, t, st, m, left).value.score) &&
         (b.value == Evaluation(t, st) || exists m :: m in moves && CaptureValue(g, t, st, m, left) == Success(Scored(b.value))))
    decreases |moves|
  {
    if moves != [] {
      var prefix, last := moves[..|moves| - 1], moves[|moves| - 1];
      assert last in moves;
      assert forall m :: m in moves <==> m in prefix || m == last;
      BestMeaning(g, t, st, prefix, left);
    }
  }

  /** The order of the moves does not matter: the same moves give the same value. */
  lemma BestPermuted(g: Game, t: EvalTables, st: BoardState, a: seq<Move>, b: seq<Move>, left: nat)
    requires Sound(g) && TablesShaped(t) && WellFormed(st) && AllPlayable(st, a) && AllPlayable(st, b) && left >= 1
    requires forall m :: m in a <==> m in b
    ensures SameResult(Best(g, t, st, a, left), Best(g, t, st, b, left))
  {
    BestMeaning(g, t, st, a, left);
    BestMeaning(g, t, st, b, left);
  }

  /** The stand-pat score is a lower bound of the value. */
  lemma StandPat(g: Game, t: EvalTables, st: BoardState, left: nat)
    requires Sound(g) && TablesShaped(t) && WellFormed(st)
    ensures var q := QValue(g, t, st, left);
      q.Success? ==> q.value >= Evaluation(t, st)
  {
    if left > 0 {
      MovesPlayable(g, st);
      BestMeaning(g, t, st, g.generate(st), left);
    }
  }

  // ---------------------------------------------------------------------
  // The value reads no hash word
  // ---------------------------------------------------------------------

  lemma {:induction false} QValueIgnoresHash(g: Game, t: EvalTables, st: BoardState, st': BoardState, left: nat)
    requires Sound(g) && TablesShaped(t) && WellFormed(st) && WellFormed(st') && SamePosition(st, st')
    ensures SameResult(QValue(g, t, st, left), QValue(g, t, st', left))
    decreases left, 2, 0
  {
    assert st.bitboards == st'.bitboards && st.sideToMove == st'.sideToMove;
    if left > 0 {
      MovesIgnoreHash(g, st, st');
      MovesPlayable(g, st);
      BestIgnoresHash(g, t, st, st', g.generate(st), left);
    }
  }

  lemma {:induction false} BestIgnoresHash(g: Game, t: EvalTables, st: BoardState, st': BoardState, moves: seq<Move>, left: nat)
    requires Sound(g) && TablesShaped(t) && WellFormed(st) && WellFormed(st') && SamePosition(st, st')
    requires AllPlayable(st, moves) && left >= 1
    ensures AllPlayable(st', moves)
    ensures SameResult(Best(g, t, st, moves, left), Best(g, t, st', moves, left))
    decreases left, 1, |moves|
  {
    assert st.bitboards == st'.bitboards && st.sideToMove == st'.sideToMove;
    if moves != [] {
      var prefix, last := moves[..|moves| - 1], moves[|moves| - 1];
      assert last in moves;
      BestIgnoresHash(g, t, st, st', prefix, left);
      CaptureValueIgnoresHash(g, t, st, st', last, left);
    }
  }

  lemma {:induction false} CaptureValueIgnoresHash(g: Game, t: EvalTables, st: BoardState, st': BoardState, m: Move, left: nat)
    requires Sound(g) && TablesShaped(t) && WellFormed(st) && WellFormed(st') && SamePosition(st, st')
    requires Playable(st, Fields(m)) && left >= 1
    ensures Playable(st', Fields(m))
    ensures SameResult(CaptureValue(g, t, st, m, left), CaptureValue(g, t, st', m, left))
    decreases left, 0, 0
  {
    PlayIgnoresHash(g, st, st', Fields(m));
    PlayAnswers(g, st, Fields(m));
    PlayAnswers(g, st', Fields(m));
    var v, v' := g.play(st, Fields(m)), g.play(st', Fields(m));
    if IsCapture(m) && v.Success? && v.value.made == 1 {
      QValueIgnoresHash(g, t, v.value.after.st, v'.value.after.st, left - 1);
    }
  }

  // ---------------------------------------------------------------------
  // quiescence's loop against the value
  // ---------------------------------------------------------------------

  /**
   * What a pass of quiescence's loop returns for a move, set against the
   * value of that move: the pass fails only where the value does, skips
   * what the value skips, and returns a capture's score pulled into the
   * window [c, beta].
   */
  predicate Answers(v: Result<Reply>, r: Result<Reply>, c: int, beta: int)
    requires c <= beta
  {
    v.Success? ==> r.Success? && r.value.Skipped? == v.value.Skipped? &&
                   (v.value.Scored? ==> r.value.score == Clamp(v.value.score, c, beta))
  }

  /** The value is known and the window's lower edge already holds the stand-pat score. */
  ghost predicate Settled(g: Game, t: EvalTables, st: BoardState, left: nat, a: int)
    requires Sound(g) && TablesShaped(t) && WellFormed(st)
  {
    QValue(g, t, st, left).Success? && Evaluation(t, st) <= a
  }

  /**
   * What quiescence's capture loop promises from a window whose lower edge
   * already holds the stand-pat score: its answer is the value pulled
   * into the window.
   */
  ghost predicate Quiesced(g: Game, t: EvalTables, st: BoardState, left: nat, a: int, beta: int, r: Result<int>)
    requires Sound(g) && TablesShaped(t) && WellFormed(st)
  {
    a <= beta && Settled(g, t, st, left, a) ==> r == Success(Clamp(QValue(g, t, st, left).value, a, beta))
  }

  /**
   * The invariant of quiescence's loop after the first i moves: alpha (c)
   * stays in the window [a, beta], and is the fold over those moves pulled
   * into it.
   */
  ghost predicate Window(g: Game, t: EvalTables, st: BoardState, moves: seq<Move>, i: nat, left: nat, a: int, beta: int, c: int)
    requires Sound(g) && TablesShaped(t) && WellFormed(st) && AllPlayable(st, moves) && i <= |moves| && left >= 1
  {
    a <= beta ==>
      a <= c <= beta &&
      (Settled(g, t, st, left, a) ==>
         var b := Best(g, t, st, moves[..i], left);
         b.Success? && c == Clamp(b.value, a, beta))
  }

  /** alpha after a pass that did not cut off: raised to a score strictly inside the window. */
  function Raised(c: int, r: Result<Reply>): int
  {
    if r.Success? && r.value.Scored? && r.value.score > c then r.value.score else c
  }

  /** Sorting keeps the moves it is given, and no others. */
  lemma SortedMembers(key: Move -> int, s: seq<Move>)
    ensures forall m :: m in SortBy(key, s) <==> m in s
  {
    SortPermutesAndDescends(key, s);
    forall m
      ensures m in SortBy(key, s) <==> m in s
    {
      assert m in SortBy(key, s) <==> m in multiset(SortBy(key, s));
      assert m in s <==> m in multiset(s);
    }
  }

  /** Before the loop, alpha is the window's lower edge. */
  lemma WindowStart(g: Game, t: EvalTables, st: BoardState, moves: seq<Move>, left: nat, a: int, beta: int)
    requires Sound(g) && TablesShaped(t) && WellFormed(st) && AllPlayable(st, moves) && left >= 1
    ensures Window(g, t, st, moves, 0, left, a, beta, a)
  {
    assert moves[..0] == [];
  }

  /**
   * One pass of the loop, on a board that differs from st at most in its
   * hash word: a failure means the value fails too; a cutoff means the
   * value pulled into the window is beta; otherwise the invariant holds
   * for one more move.
   */
  lemma WindowStep(g: Game, t: EvalTables, st: BoardState, cur: BoardState, moves: seq<Move>, i: nat, left: nat,
                   a: int, beta: int, c: int, r: Result<Reply>)
    requires Sound(g) && TablesShaped(t) && WellFormed(st) && WellFormed(cur) && SamePosition(cur, st) && left >= 1
    requires AllPlayable(st, moves) && i < |moves| && forall m :: m in moves ==> m in g.generate(st)
    requires Window(g, t, st, moves, i, left, a, beta, c)
    requires Playable(cur, Fields(moves[i]))
    requires c <= beta ==> Answers(CaptureValue(g, t, cur, moves[i], left), r, c, beta)
    ensures r.Failure? ==> Quiesced(g, t, st, left, a, beta, Failure(r.error))
    ensures r.Success? && r.value.Scored? && r.value.score >= beta ==> Quiesced(g, t, st, left, a, beta, Success(beta))
    ensures r.Success? && !(r.value.Scored? && r.value.score >= beta) ==>
      Window(g, t, st, moves, i + 1, left, a, beta, Raised(c, r))
  {
    var m := moves[i];
    assert m in moves;
    assert moves[..i + 1][..i] == moves[..i] && moves[..i + 1][i] == m;
    if a <= beta && Settled(g, t, st, left, a) {
      var q := QValue(g, t, st, left);
      MovesPlayable(g, st);
      BestMeaning(g, t, st, g.generate(st), left);
      CaptureValueIgnoresHash(g, t, st, cur, m, left);
      BestMeaning(g, t, st, moves[..i + 1], left);
    }
  }

  /** After the last move the loop's alpha is the value pulled into the window. */
  lemma WindowEnd(g: Game, t: EvalTables, st: BoardState, moves: seq<Move>, left: nat, a: int, beta: int, c: int)
    requires Sound(g) && TablesShaped(t) && WellFormed(st) && AllPlayable(st, moves) && left >= 1
    requires forall m :: m in moves <==> m in g.generate(st)
    requires Window(g, t, st, moves, |moves|, left, a, beta, c)
    ensures Quiesced(g, t, st, left, a, beta, Success(c))
  {
    assert moves[..|moves|] == moves;
    MovesPlayable(g, st);
    BestPermuted(g, t, st, moves, g.generate(st), left);
  }

  // ---------------------------------------------------------------------
  // one pass of quiescence's loop against the value of its move
  // ---------------------------------------------------------------------

  /** A searched reply as the parent sees it: the child's score negated, or the child's failure. */
  function Negated(child: Result<int>): Result<Reply>
  {
    if child.Failure? then Failure(child.error) else Success(Scored(-child.value))
  }

  /** Negating a score swaps the window: the child's window [-beta, -c] is the parent's [c, beta] turned over. */
  lemma ClampNegated(x: int, c: int, beta: int)
    requires c <= beta
    ensures -Clamp(x, -beta, -c) == Clamp(-x, c, beta)
  {
  }

  /** A quiet move, or a capture makeMove rejects, is skipped. */
  lemma SkipAnswers(g: Game, t: EvalTables, st: BoardState, m: Move, left: nat, c: int, beta: int)
    requires Sound(g) && TablesShaped(t) && WellFormed(st) && Playable(st, Fields(m)) && left >= 1 && c <= beta
    requires !IsCapture(m) || (g.play(st, Fields(m)).Success? && g.play(st, Fields(m)).value.made == 0)
    ensures Answers(CaptureValue(g, t, st, m, left), Success(Skipped), c, beta)
  {
  }

  /** A capture on which makeMove fails has no value. */
  lemma CaptureFails(g: Game, t: EvalTables, st: BoardState, m: Move, left: nat)
    requires Sound(g) && TablesShaped(t) && WellFormed(st) && Playable(st, Fields(m)) && left >= 1
    requires IsCapture(m) && g.play(st, Fields(m)).Failure?
    ensures CaptureValue(g, t, st, m, left).Failure?
  {
  }

  /**
   * An accepted capture: when the child's search returns the child's
   * value pulled into [-beta, -c], the negated answer is the capture's
   * value pulled into [c, beta].
   */
  lemma ReplyAnswers(g: Game, t: EvalTables, st: BoardState, m: Move, left: nat, c: int, beta: int, after: BoardState, child: Result<int>)
    requires Sound(g) && TablesShaped(t) && WellFormed(st) && Playable(st, Fields(m)) && left >= 1 && c <= beta
    requires IsCapture(m) && g.play(st, Fields(m)).Success? && g.play(st, Fields(m)).value.made != 0
    requires g.play(st, Fields(m)).value.after.st == after && WellFormed(after)
    requires var q := QValue(g, t, after, left - 1); q.Success? ==> child == Success(Clamp(q.value, -beta, -c))
    ensures Answers(CaptureValue(g, t, st, m, left), Negated(child), c, beta)
  {
    var q := QValue(g, t, after, left - 1);
    if q.Success? {
      ClampNegated(q.value, c, beta);
    }
  }

  /**
   * quiescence's stand pat: at the horizon the value is the evaluation; an
   * evaluation at or above beta pins the value pulled into the window to
   * beta.
   */
  lemma StandPatWindow(g: Game, t: EvalTables, st: BoardState, left: nat, alpha: int, beta: int)
    requires Sound(g) && TablesShaped(t) && WellFormed(st) && alpha <= beta
    ensures left == 0 ==> QValue(g, t, st, left) == Success(Evaluation(t, st))
    ensures var q := QValue(g, t, st, left);
      q.Success? && Evaluation(t, st) >= beta ==> Clamp(q.value, alpha, beta) == beta
  {
    StandPat(g, t, st, left);
  }

  /** Below beta, the capture loop's answer from alpha raised to the evaluation is the value pulled into [alpha, beta]. */
  lemma RaisedWindow(g: Game, t: EvalTables, st: BoardState, left: nat, alpha: int, beta: int, r: Result<int>)
    requires Sound(g) && TablesShaped(t) && WellFormed(st) && alpha <= beta && Evaluation(t, st) < beta
    requires Quiesced(g, t, st, left, Max(Evaluation(t, st), alpha), beta, r)
    ensures var q := QValue(g, t, st, left);
      q.Success? ==> r == Success(Clamp(q.value, alpha, beta))
  {
    StandPat(g, t, st, left);
  }
}
