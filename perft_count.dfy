/**
 * What perft (main.cpp) adds up. Its loop plays every generated move on
 * the board the move before it left, and a move makeMove rejects leaves its
 * hash word behind. The hash word does not change any count, so perft at a
 * depth is the sum of perft one ply lower over the generated moves that
 * makeMove accepts, each played on the position itself.
 */
module PerftCounts {
  import opened Wrappers
  import opened MoveEncoding
  import opened BoardStates
  import opened MakeMoves
  import opened MoveGeneration
  import opened SearchSpecs
  import opened SearchValues

  /** Two perft answers that agree on success and, when they succeed, on the count. */
  predicate SameCount(a: Result<Tally>, b: Result<Tally>)
  {
    a.Success? == b.Success? && (a.Success? ==> a.value.nodes == b.value.nodes)
  }

  /**
   * perft(depth - 1) below each of the moves makeMove accepts on st, added
   * up; the first failure of makeMove or of a count below is the answer.
   */
  ghost function Subtrees(g: Game, st: BoardState, moves: seq<Move>, depth: nat): (r: Result<nat>)
    requires Sound(g) && WellFormed(st) && depth >= 1
    requires AllPlayable(st, moves)
    decreases |moves|
  {
    if moves == [] then Success(0)
    else
      var last := moves[|moves| - 1];
      assert last in moves;
      var before := Subtrees(g, st, moves[..|moves| - 1], depth);
      PlayAnswers(g, st, Fields(last));
      var v := g.play(st, Fields(last));
      if before.Failure? then before
      else if v.Failure? then Failure(v.error)
      else if v.value.made == 0 then before
      else
        var sub := PerftRun(g, v.value.after.st, depth - 1);
        if sub.Failure? then Failure(sub.error) else Success(before.value + sub.value.nodes)
  }

  /** perft counts the same nodes whatever word the hash key holds. */
  lemma {:induction false} PerftRunIgnoresHash(g: Game, st: BoardState, st': BoardState, depth: nat)
    requires Sound(g) && WellFormed(st) && WellFormed(st') && SamePosition(st, st')
    ensures SameCount(PerftRun(g, st, depth), PerftRun(g, st', depth))
    decreases depth, 2, 0
  {
    if depth > 0 {
      MovesIgnoreHash(g, st, st');
      MovesPlayable(g, st);
      MovesPlayable(g, st');
      PerftLoopIgnoresHash(g, st, st', g.generate(st), depth);
    }
  }

  /** So does its loop, started from either board. */
  lemma {:induction false} PerftLoopIgnoresHash(g: Game, st: BoardState, st': BoardState, moves: seq<Move>, depth: nat)
    requires Sound(g) && WellFormed(st) && WellFormed(st') && SamePosition(st, st') && depth >= 1
    requires AllPlayable(st, moves) && AllPlayable(st', moves)
    ensures SameCount(PerftLoop(g, st, moves, depth), PerftLoop(g, st', moves, depth))
    decreases depth, 1, |moves|
  {
    if moves != [] {
      var prefix, last := moves[..|moves| - 1], moves[|moves| - 1];
      assert last in moves;
      PerftLoopIgnoresHash(g, st, st', prefix, depth);
      var before, before' := PerftLoop(g, st, prefix, depth), PerftLoop(g, st', prefix, depth);
      if before.Success? {
        PerftStepIgnoresHash(g, before.value, before'.value, last, depth);
      }
    }
  }

  /** And one pass of the loop, on boards with the same count and position. */
  lemma {:induction false} PerftStepIgnoresHash(g: Game, t: Tally, t': Tally, m: Move, depth: nat)
    requires Sound(g) && WellFormed(t.last) && WellFormed(t'.last) && depth >= 1
    requires SamePosition(t.last, t'.last) && t.nodes == t'.nodes
    requires Playable(t.last, Fields(m)) && Playable(t'.last, Fields(m))
    ensures SameCount(PerftStep(g, t, m, depth), PerftStep(g, t', m, depth))
    decreases depth, 0, 0
  {
    PlayIgnoresHash(g, t.last, t'.last, Fields(m));
    PlayAnswers(g, t.last, Fields(m));
    PlayAnswers(g, t'.last, Fields(m));
    var v, v' := g.play(t.last, Fields(m)), g.play(t'.last, Fields(m));
    if v.Success? && v.value.made != 0 {
      PerftRunIgnoresHash(g, v.value.after.st, v'.value.after.st, depth - 1);
    }
  }

  /** perft's loop over the moves counts what Subtrees adds up for them on st. */
  lemma {:induction false} PerftLoopSums(g: Game, st: BoardState, moves: seq<Move>, depth: nat)
    requires Sound(g) && WellFormed(st) && depth >= 1
    requires AllPlayable(st, moves)
    ensures var r, s := PerftLoop(g, st, moves, depth), Subtrees(g, st, moves, depth);
      r.Success? == s.Success? && (r.Success? ==> r.value.nodes == s.value)
    decreases |moves|
  {
    if moves != [] {
      var prefix, last := moves[..|moves| - 1], moves[|moves| - 1];
      assert last in moves;
      PerftLoopSums(g, st, prefix, depth);
      var before := PerftLoop(g, st, prefix, depth);
      if before.Success? {
        var t := before.value;
        assert Playable(t.last, Fields(last)) by { PlayIgnoresHash(g, st, t.last, Fields(last)); }
        PerftStepIgnoresHash(g, Tally(t.nodes, st), t, last, depth);
      }
    }
  }

  /**
   * perft(depth) is perft(depth - 1) summed over the generated moves that
   * makeMove accepts, each played on the position itself.
   */
  lemma PerftSums(g: Game, st: BoardState, depth: nat)
    requires Sound(g) && WellFormed(st) && depth >= 1
    ensures forall m :: m in Generated(st) ==> Playable(st, Fields(m))
    ensures var r, s := PerftRun(g, st, depth), Subtrees(g, st, Generated(st), depth);
      r.Success? == s.Success? && (r.Success? ==> r.value.nodes == s.value)
  {
    GeneratedPlayable(st);
    GameMoves(g, st);
    PerftLoopSums(g, st, Generated(st), depth);
  }
}
