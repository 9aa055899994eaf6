/**
 * What negamax (main.cpp) is proved against: which generated moves makeMove
 * accepts, the score of a node where it accepts none, and the window a
 * fail-hard search keeps its answer in.
 *
 * negamax counts the moves makeMove accepts in legalMoves. When there are
 * none, the side to move is mated if its king is attacked and stalemated
 * otherwise. That decision, like every other, reads no hash word.
 */
module NegamaxSpecs {
  import opened Wrappers
  import opened MoveEncoding
  import opened BoardStates
  import opened MakeMoves
  import opened SearchSpecs
  import opened SearchValues

  /** makeMove accepts m in st: negamax counts it in legalMoves and searches below it. */
  ghost predicate Legal(g: Game, st: BoardState, m: Move)
  {
    var v := g.play(st, Fields(m));
    v.Success? && v.value.made != 0
  }

  /** makeMove accepts none of the moves generated in st: legalMoves stays 0. */
  ghost predicate Stalled(g: Game, st: BoardState)
  {
    forall m :: m in g.generate(st) ==> !Legal(g, st, m)
  }

  /** negamax's score where no move is legal: mated at this ply when in check, stalemate otherwise. */
  function Terminal(inCheck: bool, checkmate: int, stalemate: int, ply: int): int
  {
    if inCheck then checkmate + ply else stalemate
  }

  /**
   * What negamax answers at a node it searches (depth above 0, ply below
   * MAX_SEARCH_DEPTH): a failed check test fails the search; with no legal
   * move the mate or stalemate score, unless the null move already cut the
   * node off at beta; otherwise a value in the window.
   */
  ghost predicate NodeAnswer(g: Game, st: BoardState, checkmate: int, stalemate: int, ply: int,
                             alpha: int, beta: int, nullTried: bool, r: Result<int>)
    requires WellFormed(st)
  {
    (g.check(st).Failure? ==> r.Failure?) &&
    (r.Success? && Stalled(g, st) && g.check(st) == Success(true) ==> r.value == checkmate + ply) &&
    (r.Success? && Stalled(g, st) && g.check(st) == Success(false) ==> r.value == stalemate || (nullTried && r.value == beta)) &&
    (r.Success? && !Stalled(g, st) && alpha <= beta ==> alpha <= r.value <= beta)
  }

  /** Whether makeMove accepts a move does not depend on the hash word of the board it is played on. */
  lemma LegalIgnoresHash(g: Game, st: BoardState, st': BoardState, m: Move)
    requires Sound(g) && WellFormed(st) && WellFormed(st') && SamePosition(st, st') && Playable(st, Fields(m))
    ensures Legal(g, st, m) == Legal(g, st', m)
  {
    PlayIgnoresHash(g, st, st', Fields(m));
  }

  /** Nor does whether a position has a legal move, so mate and stalemate are decided alike on both words. */
  lemma StalledIgnoresHash(g: Game, st: BoardState, st': BoardState)
    requires Sound(g) && WellFormed(st) && WellFormed(st') && SamePosition(st, st')
    ensures Stalled(g, st) == Stalled(g, st')
  {
    MovesIgnoreHash(g, st, st');
    MovesPlayable(g, st);
    forall m | m in g.generate(st)
      ensures Legal(g, st, m) == Legal(g, st', m)
    {
      LegalIgnoresHash(g, st, st', m);
    }
  }

  /** A list holding exactly the generated moves has no legal move in it exactly when the position is stalled. */
  lemma NoneLegal(g: Game, st: BoardState, moves: seq<Move>)
    requires forall m :: m in moves <==> m in g.generate(st)
    ensures (forall k :: 0 <= k < |moves| ==> !Legal(g, st, moves[k])) <==> Stalled(g, st)
  {
    if forall k :: 0 <= k < |moves| ==> !Legal(g, st, moves[k]) {
      forall m | m in g.generate(st)
        ensures !Legal(g, st, m)
      {
        var k :| 0 <= k < |moves| && moves[k] == m;
      }
    }
  }
}
