/**
 * Class Position (main.cpp): the board a search plays on, with the
 * search's scratch tables (killer moves, history scores, the triangular
 * principal-variation table) and its counters.
 *
 * Every search method plays moves by copying the board, calling makeMove
 * and copying the board back. A move makeMove rejects is not copied back:
 * the board keeps the hash keys the rejected move XORed in, so each
 * method promises the position it found (SamePosition), not the word.
 *
 * The constants of const.h (MAX_SEARCH_DEPTH, CHECKMATE_SCORE,
 * STALEMATE_SCORE, REDUCTION_LIMIT, FULL_DEPTH_MOVES, MVV_LVA) and the
 * evaluation tables are fields fixed at construction.
 */
module Positions {
  import opened Wrappers
  import opened Bitboards
  import opened MoveEncoding
  import opened MoveLists
  import opened AttackTables
  import opened BoardStates
  import opened Zobrist
  import opened Evaluations
  import opened MakeMoves
  import opened Boards
  import opened MoveGeneration
  import opened MoveOrdering
  import opened SearchSpecs
  import opened SearchValues
  import opened NegamaxSpecs

  /**
   * board.makeMove(move) read through a game that answers as makeMove does
   * once the attack tables are built.
   */
  method MakeMoveThrough(board: Board, attacks: AttackTable, keys: ZobristKeys, castleState: seq<bv4>, ghost g: Game, move: Move)
    returns (made: Result<int>)
    requires board.Valid() && attacks.Ready() && Sound(g) && g.keys == keys && g.castleState == castleState
    requires Playable(board.State(), Fields(move))
    modifies board
    ensures board.Valid()
    ensures var v := g.play(old(board.State()), Fields(move));
      if v.Success? then made == Success(v.value.made) && board.State() == v.value.after.st
      else made == Failure(v.error)
  {
    ghost var before := board.State();
    NotATable(board, attacks);
    made := board.MakeMove(keys, castleState, attacks, move);
    assert unchanged(attacks.pawnAttacks, attacks.knightAttacks, attacks.kingAttacks, attacks.bishopAttacks, attacks.rookAttacks,
                     attacks.bishopMasks, attacks.rookMasks, attacks.bishopMagics, attacks.rookMagics);
    PlayIsMakeMove(g, attacks, before, Fields(move));
  }

  /** generateMoves on the board's position, read through a game that lists the moves as generateMoves does. */
  method GenerateThrough(attacks: AttackTable, ghost g: Game, st: BoardState) returns (moves: MoveList)
    requires attacks.Ready() && Sound(g) && WellFormed(st) && |g.generate(st)| <= CAPACITY
    ensures fresh(moves) && fresh(moves.moves) && moves.Valid()
    ensures moves.Contents() == g.generate(st)
  {
    GameMoves(g, st);
    moves := GenerateMoves(attacks, st);
  }

  /** The table scoreMove reads, row by row: the snapshot the sort's key is taken from. */
  ghost function Rows(table: array2<int>): (rows: seq<seq<int>>)
    requires table.Length0 == 12 && table.Length1 == 64
    reads table
    ensures |rows| == 12 && forall p :: 0 <= p < 12 ==> |rows[p]| == 64
    ensures forall p, s :: 0 <= p < 12 && 0 <= s < 64 ==> rows[p][s] == table[p, s]
  {
    seq(12, p requires 0 <= p < 12 reads table => seq(64, s requires 0 <= s < 64 reads table => table[p, s]))
  }

  /** A copy of the table, row by row. */
  method TableRows(table: array2<int>) returns (rows: seq<seq<int>>)
    requires table.Length0 == 12 && table.Length1 == 64
    ensures rows == Rows(table)
  {
    rows := seq(12, p requires 0 <= p < 12 reads table => seq(64, s requires 0 <= s < 64 reads table => table[p, s]));
  }

  /** board.isKingInCheck(), read through a game whose check test answers as it does. */
  method CheckThrough(board: Board, attacks: AttackTable, ghost g: Game) returns (r: Result<bool>)
    requires board.Valid() && attacks.Ready() && Sound(g)
    ensures r == g.check(board.State())
  {
    r := board.IsKingInCheck(attacks);
    GameCheck(g, attacks, board.State(), board.State());
  }

  /**
   * The length negamax copies from one ply deeper, pvLength[ply + 1]. At
   * the last ply of the table there is no deeper row, and the line stops
   * at the table's end.
   */
  function ChildLength(pvLength: array<int>, ply: int): int
    requires 0 <= ply < pvLength.Length
    reads pvLength
  {
    if ply + 1 < pvLength.Length then pvLength[ply + 1] else pvLength.Length
  }

  /** The principal variation recorded at ply p: row p of pvTable, from column p up to pvLength[p]. */
  ghost function PvLine(pvTable: array2<Move>, pvLength: array<int>, p: int): (line: seq<Move>)
    requires pvTable.Length0 == pvTable.Length1 == pvLength.Length && 0 <= p < pvLength.Length
    requires p <= pvLength[p] <= pvLength.Length
    reads pvTable, pvLength
    ensures |line| == pvLength[p] - p && forall k :: 0 <= k < |line| ==> line[k] == pvTable[p, p + k]
  {
    var n := pvLength[p] - p;
    seq(n, k requires 0 <= k < n reads pvTable => pvTable[p, p + k])
  }

  /**
   * negamax's update of the triangular table when a move raises alpha: the
   * move heads row `ply`, the line found one ply deeper follows it, and
   * pvLength[ply] takes that line's end. Every other row and length stays.
   */
  method SplicePV(pvTable: array2<Move>, pvLength: array<int>, ply: int, move: Move)
    requires pvTable.Length0 == pvTable.Length1 == pvLength.Length && 0 <= ply < pvLength.Length
    requires forall p :: 0 <= p < pvLength.Length ==> 0 <= pvLength[p] <= pvLength.Length
    requires ply + 1 <= ChildLength(pvLength, ply)
    modifies pvTable, pvLength
    ensures pvLength[ply] == old(ChildLength(pvLength, ply))
    ensures forall p :: 0 <= p < pvLength.Length && p != ply ==> pvLength[p] == old(pvLength[p])
    ensures PvLine(pvTable, pvLength, ply) ==
            [move] + (if ply + 1 < pvLength.Length then old(PvLine(pvTable, pvLength, ply + 1)) else [])
    ensures forall p, c :: 0 <= p < pvTable.Length0 && 0 <= c < pvTable.Length1 && p != ply ==> pvTable[p, c] == old(pvTable[p, c])
  {
    var length := ChildLength(pvLength, ply);
    pvTable[ply, ply] := move;
    var nextPly := ply + 1;
    while nextPly < length
      modifies pvTable
      invariant ply + 1 <= nextPly <= length && pvTable[ply, ply] == move
      invariant forall c :: ply < c < nextPly ==> pvTable[ply, c] == old(pvTable[ply + 1, c])
      invariant forall p, c :: 0 <= p < pvTable.Length0 && 0 <= c < pvTable.Length1 && p != ply ==> pvTable[p, c] == old(pvTable[p, c])
    {
      pvTable[ply, nextPly] := pvTable[ply + 1, nextPly];
      nextPly := nextPly + 1;
    }
    pvLength[ply] := length;
    ghost var line := PvLine(pvTable, pvLength, ply);
    if ply + 1 < pvLength.Length {
      ghost var deeper := old(PvLine(pvTable, pvLength, ply + 1));
      assert |line| == 1 + |deeper|;
      forall k | 1 <= k < |line|
        ensures line[k] == deeper[k - 1]
      {
        assert line[k] == pvTable[ply, ply + k];
      }
      assert line == [move] + deeper;
    } else {
      assert line == [move];
    }
  }

  /** Every entry of a move table set to 0. */
  method ClearMoves(a: array2<Move>)
    modifies a
    ensures forall i, j :: 0 <= i < a.Length0 && 0 <= j < a.Length1 ==> a[i, j] == 0
  {
    forall i, j | 0 <= i < a.Length0 && 0 <= j < a.Length1 {
      a[i, j] := 0;
    }
  }

  /** Every entry of a score table set to 0. */
  method ClearScores(a: array2<int>)
    modifies a
    ensures forall i, j :: 0 <= i < a.Length0 && 0 <= j < a.Length1 ==> a[i, j] == 0
  {
    forall i, j | 0 <= i < a.Length0 && 0 <= j < a.Length1 {
      a[i, j] := 0;
    }
  }

  /** Every length set to 0. */
  method ClearLengths(a: array<int>)
    modifies a
    ensures forall i :: 0 <= i < a.Length ==> a[i] == 0
  {
    forall i | 0 <= i < a.Length {
      a[i] := 0;
    }
  }

  /** What the search keeps for one ply: its row of pvTable, pvLength and the two killer moves. */
  datatype PlyTables = PlyTables(line: seq<Move>, length: int, firstKiller: Move, secondKiller: Move)

  /** The move that cut negamax's loop off at beta, if one did. */
  datatype Cut = NoCut | CutBy(move: Move)

  /** What one move of negamax's loop comes to: rejected, searched, raising alpha to a score, or cutting the node off. */
  datatype Step = Illegal | Searched | Raised(score: int) | Cutoff

  class Position {
    const board: Board
    const attacks: AttackTable
    const keys: ZobristKeys
    const castleState: seq<bv4>
    const tables: EvalTables

    const maxDepth: nat
    const checkmate: int
    const stalemate: int
    const reductionLimit: nat
    const fullDepthMoves: nat
    const mvvLva: seq<seq<int>>

    /** killerMoves[2][MAX_SEARCH_DEPTH]: the last two quiet moves that caused a cutoff at each ply. */
    const killerMoves: array2<Move>
    /** historyMoves[12][64]: a score per piece and target square. */
    const historyMoves: array2<int>
    /** pvTable[MAX_SEARCH_DEPTH][MAX_SEARCH_DEPTH]: row p holds the best line found from ply p. */
    const pvTable: array2<Move>
    /** pvLength[p]: the row of pvTable at ply p runs from p up to pvLength[p]. */
    const pvLength: array<int>

    var fPVScore: bool
    var fPVFollow: bool
    var bestMove: Move
    var ply: nat
    var searchNodes: nat

    /** makeMove with this position's tables, as the search specifications see it. */
    ghost const game: Game
    /** The positions this search may reach from its starting board. */
    ghost const reach: iset<BoardState>

    /** The tables' dimensions: two killers and one principal-variation row per ply. */
    ghost predicate Shaped()
    {
      killerMoves.Length0 == 2 && killerMoves.Length1 == maxDepth &&
      pvTable.Length0 == maxDepth && pvTable.Length1 == maxDepth && pvLength.Length == maxDepth &&
      killerMoves != pvTable
    }

    ghost predicate Valid()
      reads board, pvLength
      reads attacks.pawnAttacks, attacks.knightAttacks, attacks.kingAttacks, attacks.bishopAttacks, attacks.rookAttacks, attacks.bishopMasks, attacks.rookMasks, attacks.bishopMagics, attacks.rookMagics
    {
      board.Valid() && attacks.Ready() && Closed(game, reach) && game.keys == keys && game.castleState == castleState &&
      TablesShaped(tables) &&
      reductionLimit >= 2 &&
      |mvvLva| == 12 && (forall p :: 0 <= p < 12 ==> |mvvLva[p]| == 12) &&
      Shaped() && historyMoves.Length0 == 12 && historyMoves.Length1 == 64 &&
      killerMoves !in attacks.Tables() && historyMoves !in attacks.Tables() && pvTable !in attacks.Tables() && pvLength !in attacks.Tables() &&
      (forall p :: 0 <= p < maxDepth ==> 0 <= pvLength[p] <= maxDepth)
    }

    /**
     * Position(fenString): the board, then ply and searchNodes set to 0.
     * The source leaves the tables uninitialised until
     * resetSearchVariables; here they start zeroed.
     */
    constructor (board: Board, attacks: AttackTable, keys: ZobristKeys, castleState: seq<bv4>, tables: EvalTables,
                 maxDepth: nat, checkmate: int, stalemate: int, reductionLimit: nat, fullDepthMoves: nat,
                 mvvLva: seq<seq<int>>, ghost game: Game, ghost reach: iset<BoardState>)
      requires board.Valid() && attacks.Ready() && game.keys == keys && game.castleState == castleState
      requires Closed(game, reach) && Unhashed(board.State()) in reach
      requires TablesShaped(tables) && reductionLimit >= 2
      requires |mvvLva| == 12 && forall p :: 0 <= p < 12 ==> |mvvLva[p]| == 12
      ensures Valid() && this.board == board && this.attacks == attacks && this.game == game && this.reach == reach
      ensures board.State() == old(board.State()) && Unhashed(board.State()) in reach
      ensures ply == 0 && searchNodes == 0 && !fPVScore && fPVFollow
    {
      this.board := board;
      this.attacks := attacks;
      this.keys := keys;
      this.castleState := castleState;
      this.tables := tables;
      this.maxDepth := maxDepth;
      this.checkmate := checkmate;
      this.stalemate := stalemate;
      this.reductionLimit := reductionLimit;
      this.fullDepthMoves := fullDepthMoves;
      this.mvvLva := mvvLva;
      this.game := game;
      this.reach := reach;
      killerMoves := new Move[2, maxDepth]((i, j) => 0);
      historyMoves := new int[12, 64]((i, j) => 0);
      pvTable := new Move[maxDepth, maxDepth]((i, j) => 0);
      pvLength := new int[maxDepth](i => 0);
      fPVScore := false;
      fPVFollow := true;
      bestMove := 0;
      ply := 0;
      searchNodes := 0;
    }

    // -------------------------------------------------------------------
    // makeMove and isKingInCheck, read through their meanings
    // -------------------------------------------------------------------

    /** board.makeMove(move): the answer and the board it leaves are the game's. */
    method Play(move: Move) returns (made: Result<int>)
      requires Valid() && Playable(board.State(), Fields(move))
      modifies board
      ensures Valid()
      ensures var v := game.play(old(board.State()), Fields(move));
        if v.Success? then made == Success(v.value.made) && board.State() == v.value.after.st
        else made == Failure(v.error)
    {
      NotATable(board, attacks);
      made := MakeMoveThrough(board, attacks, keys, castleState, game, move);
      assert unchanged(attacks.pawnAttacks, attacks.knightAttacks, attacks.kingAttacks, attacks.bishopAttacks, attacks.rookAttacks,
                       attacks.bishopMasks, attacks.rookMasks, attacks.bishopMagics, attacks.rookMagics);
    }

    // -------------------------------------------------------------------
    // perft
    // -------------------------------------------------------------------

    /**
     * perft(depth): the leaves of the legal-move tree, counted by playing
     * each generated move and copying the board back after an accepted one.
     */
    method Perft(depth: nat) returns (r: Result<nat>)
      requires Valid() && Unhashed(board.State()) in reach
      modifies board
      ensures Valid()
      ensures var p := PerftRun(game, old(board.State()), depth);
        if p.Success? then r == Success(p.value.nodes) && board.State() == p.value.last
        else r == Failure(p.error)
      decreases depth, 1, 0
    {
      if depth == 0 {
        return Success(1);
      }
      ghost var st := board.State();
      var moves := GenerateThrough(attacks, game, board.State());
      MovesPlayable(game, st);
      ghost var all := game.generate(st);
      var nodes := 0;
      var moveIndex := 0;
      while moveIndex < moves.count
        modifies board
        invariant Valid() && Unhashed(board.State()) in reach && 0 <= moveIndex <= moves.count
        invariant PerftLoop(game, st, all[..moveIndex], depth) == Success(Tally(nodes, board.State()))
      {
        var move := moves.moves[moveIndex];
        assert move == all[moveIndex] && move in all;
        PerftLoopNext(game, st, all, moveIndex, depth);
        var step := PerftMove(move, depth, nodes, st);
        if step.Failure? {
          PerftFailsAt(game, st, all, moveIndex, depth);
          return Failure(step.error);
        }
        nodes := step.value;
        moveIndex := moveIndex + 1;
      }
      assert all[..moveIndex] == all;
      r := Success(nodes);
    }

    /**
     * One pass of perft's loop: copy the board, play the move, and when
     * makeMove accepts it add perft(depth - 1) to `nodes` and copy back.
     */
    method PerftMove(move: Move, depth: nat, nodes: nat, ghost st: BoardState) returns (r: Result<nat>)
      requires Valid() && depth >= 1 && Unhashed(st) in reach && WellFormed(st) && move in game.generate(st)
      requires SamePosition(board.State(), st)
      modifies board
      ensures Valid() && Playable(old(board.State()), Fields(move))
      ensures var s := PerftStep(game, Tally(nodes, old(board.State())), move, depth);
        if s.Success? then r == Success(s.value.nodes) && board.State() == s.value.last && Unhashed(board.State()) in reach
        else r == Failure(s.error)
      decreases depth, 0, 1
    {
      StaysInReach(game, reach, st, board.State(), move);
      var temporaryBoard := board.State();
      var made := Play(move);
      if made.Failure? {
        r := Failure(made.error);
      } else if made.value == 0 {
        r := Success(nodes);
      } else {
        r := PerftBelow(depth, nodes, temporaryBoard);
      }
    }

    /** The accepted-move part of perft's loop: perft(depth - 1) added to `nodes`, then the saved board copied back. */
    method PerftBelow(depth: nat, nodes: nat, saved: BoardState) returns (r: Result<nat>)
      requires Valid() && depth >= 1 && Unhashed(board.State()) in reach && WellFormed(saved) && Unhashed(saved) in reach
      modifies board
      ensures Valid()
      ensures var p := PerftRun(game, old(board.State()), depth - 1);
        if p.Success? then r == Success(nodes + p.value.nodes) && board.State() == saved
        else r == Failure(p.error)
      decreases depth, 0, 0
    {
      var sub := Perft(depth - 1);
      if sub.Failure? {
        return Failure(sub.error);
      }
      board.CopyFrom(saved);
      r := Success(nodes + sub.value);
    }

    // -------------------------------------------------------------------
    // move ordering
    // -------------------------------------------------------------------

    /** What scoreMove reads at this ply: the flag, the tables' entries, the board. */
    ghost function CurrentOrdering(): (o: Ordering)
      requires Valid() && ply < maxDepth
      reads this, board, killerMoves, historyMoves, pvTable, pvLength
      reads attacks.pawnAttacks, attacks.knightAttacks, attacks.kingAttacks, attacks.bishopAttacks, attacks.rookAttacks, attacks.bishopMasks, attacks.rookMasks, attacks.bishopMagics, attacks.rookMagics
      ensures OrderingShaped(o)
    {
      Ordering(fPVScore, pvTable[0, ply], killerMoves[0, ply], killerMoves[1, ply], Rows(historyMoves),
               mvvLva, board.bitboards, board.sideToMove)
    }

    /**
     * sortMoves: merge sort by scoreMove's score, highest first. The score
     * reads the tables at this ply and the board; fPVScore is read as it
     * stood when the sort began. scoreMove clears fPVScore when it scores
     * the principal-variation move, and merge scores every move of a list
     * of two or more at least once, so the flag ends cleared exactly when
     * such a list holds that move.
     */
    method SortMoves(moves: MoveList) returns (o: Ordering)
      requires Valid() && ply < maxDepth && moves.Valid() && moves.moves != pvLength as object
      modifies this`fPVScore, moves.moves
      ensures Valid() && moves.Valid() && o == old(CurrentOrdering())
      ensures moves.Contents() == SortBy(SortKey(o), old(moves.Contents()))
      ensures fPVScore == (old(fPVScore) && !(moves.count >= 2 && o.pvMove in old(moves.Contents())))
    {
      var history := TableRows(historyMoves);
      o := Ordering(fPVScore, pvTable[0, ply], killerMoves[0, ply], killerMoves[1, ply], history, mvvLva,
                    board.bitboards, board.sideToMove);
      ScorePV(moves.count >= 2 && o.pvMove in moves.moves[..moves.count]);
      MergeSort(SortKey(o), moves.moves, 0, moves.count - 1);
    }

    /** scoreMove's side effect on the flag: it is cleared once the principal-variation move is scored. */
    method ScorePV(scored: bool)
      requires Valid()
      modifies this`fPVScore
      ensures Valid() && fPVScore == (old(fPVScore) && !scored)
    {
      if scored {
        fPVScore := false;
      }
    }

    // -------------------------------------------------------------------
    // quiescence
    // -------------------------------------------------------------------

    /**
     * quiescence(alpha, beta): stand pat on the static evaluation, then the
     * captures in sorted order, each searched with the window negated and
     * swapped. The answer is the capture search's value pulled into the
     * window (fail-hard). The program has no ply bound here and indexes its
     * ply tables past their end once a line runs beyond MAX_SEARCH_DEPTH
     * plies (SearchPlies); this model stands pat at maxDepth instead, which
     * touches no table.
     */
    method Quiescence(alpha: int, beta: int) returns (r: Result<int>)
      requires Valid() && ply <= maxDepth && Unhashed(board.State()) in reach
      modifies this, board
      ensures Valid() && bestMove == old(bestMove) && fPVFollow == old(fPVFollow) && (fPVScore ==> old(fPVScore))
      ensures searchNodes > old(searchNodes)
      ensures r.Success? ==> ply == old(ply) && SamePosition(board.State(), old(board.State())) && Unhashed(board.State()) in reach
      ensures alpha <= beta && r.Success? ==> alpha <= r.value <= beta
      ensures var q := QValue(game, tables, old(board.State()), maxDepth - old(ply));
        alpha <= beta && q.Success? ==> r == Success(Clamp(q.value, alpha, beta))
      decreases maxDepth - ply, 2, 0
    {
      searchNodes := searchNodes + 1;
      ghost var st, left := board.State(), maxDepth - ply;
      var evaluation := board.StaticEvaluate(tables);
      if alpha <= beta {
        StandPatWindow(game, tables, st, left, alpha, beta);
      }
      if evaluation >= beta {
        r := Success(beta);
      } else {
        var raised := if evaluation > alpha then evaluation else alpha;
        assert raised == Max(evaluation, alpha);
        if ply >= maxDepth {
          r := Success(raised);
        } else {
          r := QuiescenceMoves(raised, beta);
          assert Quiesced(game, tables, st, left, raised, beta, r);
          if alpha <= beta {
            RaisedWindow(game, tables, st, left, alpha, beta, r);
          }
        }
      }
    }

    /** The capture part of quiescence, with alpha already raised to the stand-pat score: generate, sort, then the loop. */
    method QuiescenceMoves(a: int, beta: int) returns (r: Result<int>)
      requires Valid() && Unhashed(board.State()) in reach && ply < maxDepth
      modifies this, board
      ensures Valid() && bestMove == old(bestMove) && fPVFollow == old(fPVFollow) && (fPVScore ==> old(fPVScore))
      ensures searchNodes >= old(searchNodes)
      ensures r.Success? ==> ply == old(ply) && SamePosition(board.State(), old(board.State())) && Unhashed(board.State()) in reach
      ensures a <= beta && r.Success? ==> a <= r.value <= beta
      ensures Quiesced(game, tables, old(board.State()), maxDepth - old(ply), a, beta, r)
      decreases maxDepth - ply, 1, 1
    {
      ghost var st, left := board.State(), maxDepth - ply;
      var moves := GenerateThrough(attacks, game, board.State());
      MovesPlayable(game, st);
      var o := SortMoves(moves);
      SortedMembers(SortKey(o), game.generate(st));
      r := QuiescenceLoop(moves, a, beta, st, left);
      assert st == old(board.State()) && left == maxDepth - old(ply);
    }

    /** quiescence's loop over the sorted moves. */
    method QuiescenceLoop(moves: MoveList, a: int, beta: int, ghost st: BoardState, ghost left: nat) returns (r: Result<int>)
      requires Valid() && Unhashed(st) in reach && WellFormed(st) && SamePosition(board.State(), st) && ply < maxDepth && left == maxDepth - ply
      requires moves.Valid() && forall m :: m in moves.Contents() <==> m in game.generate(st)
      modifies this, board
      ensures Valid() && bestMove == old(bestMove) && fPVFollow == old(fPVFollow) && (fPVScore ==> old(fPVScore))
      ensures searchNodes >= old(searchNodes)
      ensures r.Success? ==> ply == old(ply) && SamePosition(board.State(), st) && Unhashed(board.State()) in reach
      ensures a <= beta && r.Success? ==> a <= r.value <= beta
      ensures Quiesced(game, tables, st, left, a, beta, r)
      decreases maxDepth - ply, 1, 0
    {
      ghost var sorted := moves.Contents();
      MovesPlayable(game, st);
      WindowStart(game, tables, st, sorted, left, a, beta);
      var alpha := a;
      var moveIndex := 0;
      while moveIndex < moves.count
        modifies this, board
        invariant Valid() && ply == old(ply) && Unhashed(board.State()) in reach && SamePosition(board.State(), st)
        invariant bestMove == old(bestMove) && fPVFollow == old(fPVFollow) && (fPVScore ==> old(fPVScore))
        invariant searchNodes >= old(searchNodes)
        invariant 0 <= moveIndex <= moves.count && moves.Contents() == sorted
        invariant Window(game, tables, st, sorted, moveIndex, left, a, beta, alpha)
      {
        var move := moves.moves[moveIndex];
        assert move == sorted[moveIndex] && move in game.generate(st);
        ghost var current := board.State();
        StaysInReach(game, reach, st, current, move);
        ghost var value := CaptureValue(game, tables, board.State(), move, maxDepth - ply);
        assert value == CaptureValue(game, tables, current, move, left);
        var step := QuiescencePass(move, alpha, beta, st);
        assert alpha <= beta ==> Answers(value, step, alpha, beta);
        WindowStep(game, tables, st, current, sorted, moveIndex, left, a, beta, alpha, step);
        if step.Failure? {
          assert Quiesced(game, tables, st, left, a, beta, Failure(step.error));
          return Failure(step.error);
        }
        if step.value.Scored? && step.value.score >= beta {
          assert Quiesced(game, tables, st, left, a, beta, Success(beta));
          return Success(beta);
        }
        if step.value.Scored? && step.value.score > alpha {
          alpha := step.value.score;
        }
        moveIndex := moveIndex + 1;
      }
      WindowEnd(game, tables, st, sorted, left, a, beta, alpha);
      r := Success(alpha);
    }

    /** One pass of quiescence's loop: captures are searched, every other move is skipped. */
    method QuiescencePass(move: Move, c: int, beta: int, ghost st: BoardState) returns (r: Result<Reply>)
      requires Valid() && ply < maxDepth && Unhashed(st) in reach && WellFormed(st) && move in game.generate(st)
      requires SamePosition(board.State(), st)
      modifies this, board
      ensures Valid() && bestMove == old(bestMove) && fPVFollow == old(fPVFollow) && (fPVScore ==> old(fPVScore))
      ensures searchNodes >= old(searchNodes) && Playable(old(board.State()), Fields(move))
      ensures r.Success? ==> ply == old(ply) && SamePosition(board.State(), st) && Unhashed(board.State()) in reach
      ensures c <= beta ==> Answers(CaptureValue(game, tables, old(board.State()), move, maxDepth - old(ply)), r, c, beta)
      decreases maxDepth - ply, 0, 1
    {
      StaysInReach(game, reach, st, board.State(), move);
      if IsCapture(move) {
        r := QuiescenceCapture(move, c, beta, st);
      } else {
        if c <= beta {
          SkipAnswers(game, tables, board.State(), move, maxDepth - ply, c, beta);
        }
        r := Success(Skipped);
      }
    }

    /**
     * One capture of quiescence's loop: copy the board, play the move, and
     * when makeMove accepts it search the reply with the window negated
     * and swapped, then copy the board back.
     */
    method QuiescenceCapture(move: Move, c: int, beta: int, ghost st: BoardState) returns (r: Result<Reply>)
      requires Valid() && ply < maxDepth && Unhashed(st) in reach && WellFormed(st) && move in game.generate(st)
      requires SamePosition(board.State(), st) && IsCapture(move)
      modifies this, board
      ensures Valid() && bestMove == old(bestMove) && fPVFollow == old(fPVFollow) && (fPVScore ==> old(fPVScore))
      ensures searchNodes >= old(searchNodes) && Playable(old(board.State()), Fields(move))
      ensures r.Success? ==> ply == old(ply) && SamePosition(board.State(), st) && Unhashed(board.State()) in reach
      ensures c <= beta ==> Answers(CaptureValue(game, tables, old(board.State()), move, maxDepth - old(ply)), r, c, beta)
      decreases maxDepth - ply, 0, 0
    {
      StaysInReach(game, reach, st, board.State(), move);
      var temporaryBoard := board.State();
      ghost var left := maxDepth - ply;
      ply := ply + 1;
      assert board.State() == temporaryBoard;
      var made := Play(move);
      PlayAnswers(game, temporaryBoard, Fields(move));
      if made.Failure? {
        CaptureFails(game, tables, temporaryBoard, move, left);
        r := Failure(made.error);
      } else if made.value == 0 {
        if c <= beta {
          SkipAnswers(game, tables, temporaryBoard, move, left, c, beta);
        }
        ply := ply - 1;
        r := Success(Skipped);
      } else {
        r := QuiescenceReply(move, c, beta, temporaryBoard);
      }
    }

    /** The accepted-capture part of that pass: the reply searched with the window turned over, then the board copied back. */
    method QuiescenceReply(move: Move, c: int, beta: int, saved: BoardState) returns (r: Result<Reply>)
      requires Valid() && 1 <= ply <= maxDepth && Unhashed(board.State()) in reach && WellFormed(saved) && Unhashed(saved) in reach
      requires Playable(saved, Fields(move)) && IsCapture(move)
      requires var v := game.play(saved, Fields(move)); v.Success? && v.value.made != 0 && v.value.after.st == board.State()
      modifies this, board
      ensures Valid() && bestMove == old(bestMove) && fPVFollow == old(fPVFollow) && (fPVScore ==> old(fPVScore))
      ensures searchNodes >= old(searchNodes)
      ensures r.Success? ==> ply == old(ply) - 1 && board.State() == saved
      ensures c <= beta ==> Answers(CaptureValue(game, tables, saved, move, maxDepth - old(ply) + 1), r, c, beta)
      decreases maxDepth - ply, 3, 0
    {
      ghost var after := board.State();
      ghost var q := QValue(game, tables, after, maxDepth - ply);
      var score := Quiescence(-beta, -c);
      assert c <= beta && q.Success? ==> score == Success(Clamp(q.value, -beta, -c));
      if c <= beta {
        ReplyAnswers(game, tables, saved, move, maxDepth - old(ply) + 1, c, beta, after, score);
      }
      if score.Failure? {
        r := Failure(score.error);
      } else {
        ply := ply - 1;
        board.CopyFrom(saved);
        r := Success(Scored(-score.value));
      }
    }

    // -------------------------------------------------------------------
    // negamax
    // -------------------------------------------------------------------

    /** The tables at ply q. */
    ghost function AtPly(q: int): (t: PlyTables)
      requires Shaped() && 0 <= q < maxDepth
      reads pvTable, pvLength, killerMoves
      ensures |t.line| == maxDepth && forall c :: 0 <= c < maxDepth ==> t.line[c] == pvTable[q, c]
    {
      PlyTables(seq(maxDepth, c requires 0 <= c < maxDepth reads pvTable => pvTable[q, c]), pvLength[q],
                killerMoves[0, q], killerMoves[1, q])
    }

    /** The tables at the plies above p: what a search started at ply p leaves alone. */
    ghost function Above(p: int): (s: seq<PlyTables>)
      requires Shaped() && 0 <= p <= maxDepth
      reads pvTable, pvLength, killerMoves
      ensures |s| == p && forall q :: 0 <= q < p ==> s[q] == AtPly(q)
    {
      seq(p, q requires 0 <= q < p reads pvTable, pvLength, killerMoves => AtPly(q))
    }

    /** The plies above p are those above p + 1 but the last. */
    lemma AbovePrefix(p: int)
      requires Shaped() && 0 <= p < maxDepth
      ensures Above(p) == Above(p + 1)[..p] && Above(p + 1)[p] == AtPly(p)
    {
    }

    /**
     * setPVScore: fPVFollow ends set exactly when the list holds the move
     * the last principal variation plays at this ply, and fPVScore is then
     * set as well.
     */
    method SetPVScore(moves: MoveList)
      requires Valid() && ply < maxDepth && moves.Valid()
      modifies this`fPVScore, this`fPVFollow
      ensures Valid()
      ensures fPVFollow == (pvTable[0, ply] in moves.Contents())
      ensures fPVScore == (old(fPVScore) || pvTable[0, ply] in moves.Contents())
    {
      fPVFollow := false;
      var moveIndex := 0;
      while moveIndex < moves.count
        invariant 0 <= moveIndex <= moves.count
        invariant fPVFollow == (pvTable[0, ply] in moves.Contents()[..moveIndex])
        invariant fPVScore == (old(fPVScore) || fPVFollow)
      {
        if moves.moves[moveIndex] == pvTable[0, ply] {
          fPVScore := true;
          fPVFollow := true;
        }
        moveIndex := moveIndex + 1;
      }
      assert moves.Contents()[..moveIndex] == moves.Contents();
    }

    /** The move heading this ply's line is one makeMove accepts in st, the line is not empty, and at the root it is bestMove. */
    ghost predicate PvFound(st: BoardState)
      requires Shaped() && 0 <= ply < maxDepth
      reads this, pvTable, pvLength
    {
      var m := pvTable[ply, ply];
      ply < pvLength[ply] && m in game.generate(st) && Legal(game, st, m) && (ply == 0 ==> bestMove == m)
    }

    /**
     * negamax(alpha, beta, depth): fail-hard alpha-beta over the moves
     * makeMove accepts, with a check extension, null-move pruning and
     * late-move reductions, recording the principal variation and the
     * killer moves on the way. At depth 0 it is quiescence; from ply
     * MAX_SEARCH_DEPTH on, the static evaluation. The searches below this
     * ply leave the tables of the plies above it alone.
     */
    method Negamax(alpha: int, beta: int, depth: nat) returns (r: Result<int>)
      requires Valid() && ply <= maxDepth && Unhashed(board.State()) in reach
      modifies this, board, killerMoves, pvTable, pvLength
      ensures Valid() && searchNodes >= old(searchNodes) && (old(ply) != 0 ==> bestMove == old(bestMove))
      ensures Above(old(ply)) == old(Above(ply))
      ensures old(ply) < maxDepth ==> old(ply) <= pvLength[old(ply)]
      ensures r.Success? ==> ply == old(ply) && SamePosition(board.State(), old(board.State())) && Unhashed(board.State()) in reach
      ensures depth == 0 && alpha <= beta && r.Success? ==> alpha <= r.value <= beta
      ensures var q := QValue(game, tables, old(board.State()), maxDepth - old(ply));
        depth == 0 && alpha <= beta && q.Success? ==> r == Success(Clamp(q.value, alpha, beta))
      ensures depth > 0 && old(ply) >= maxDepth ==> r == Success(Evaluation(tables, old(board.State())))
      ensures depth > 0 && old(ply) < maxDepth ==>
        NodeAnswer(game, old(board.State()), checkmate, stalemate, old(ply), alpha, beta, depth >= reductionLimit && old(ply) != 0, r)
      ensures depth > 0 && old(ply) < maxDepth && r.Success? && !Stalled(game, old(board.State())) && alpha < r.value < beta ==>
        PvFound(old(board.State()))
      decreases maxDepth + 1 - ply, depth, 3
    {
      if ply < maxDepth {
        pvLength[ply] := ply;
        forall q | 0 <= q < ply
          ensures AtPly(q) == old(AtPly(q))
        {
          assert AtPly(q).line == old(AtPly(q)).line;
        }
        assert Above(ply) == old(Above(ply));
      }
      if depth == 0 {
        // quiescence writes no table: the rows above keep their values, entry by entry
        ghost var kept := Above(old(ply));
        r := Quiescence(alpha, beta);
        forall q | 0 <= q < old(ply)
          ensures AtPly(q) == kept[q]
        {
          assert AtPly(q).line == kept[q].line;
        }
        assert Above(old(ply)) == kept;
      } else if ply >= maxDepth {
        var evaluation := board.StaticEvaluate(tables);
        r := Success(evaluation);
      } else {
        r := NegamaxNode(alpha, beta, depth);
      }
    }

    /**
     * The searched part of negamax: count the node, test for check and
     * extend, try the null move, then the moves in search order.
     */
    method NegamaxNode(alpha: int, beta: int, depth: nat) returns (r: Result<int>)
      requires Valid() && Unhashed(board.State()) in reach && ply < maxDepth && depth >= 1 && ply <= pvLength[ply]
      modifies this, board, killerMoves, pvTable, pvLength
      ensures Valid() && searchNodes > old(searchNodes) && (old(ply) != 0 ==> bestMove == old(bestMove))
      ensures Above(old(ply)) == old(Above(ply))
      ensures old(ply) <= pvLength[old(ply)]
      ensures r.Success? ==> ply == old(ply) && SamePosition(board.State(), old(board.State())) && Unhashed(board.State()) in reach
      ensures NodeAnswer(game, old(board.State()), checkmate, stalemate, old(ply), alpha, beta, depth >= reductionLimit && old(ply) != 0, r)
      ensures r.Success? && !Stalled(game, old(board.State())) && alpha < r.value < beta ==> PvFound(old(board.State()))
      decreases maxDepth + 1 - ply, depth, 2
    {
      searchNodes := searchNodes + 1;
      var inCheck := CheckThrough(board, attacks, game);
      if inCheck.Failure? {
        return Failure(inCheck.error);
      }
      var extended := if inCheck.value then depth + 1 else depth;
      if extended >= reductionLimit && !inCheck.value && ply != 0 {
        var cut := NullMoveCut(beta, extended);
        if cut.Failure? {
          return Failure(cut.error);
        }
        if cut.value {
          return Success(beta);
        }
      }
      r := NegamaxMoves(alpha, beta, extended, inCheck.value);
    }

    /** The moves of the position in search order, searched by negamax's loop. */
    method NegamaxMoves(alpha: int, beta: int, depth: nat, inCheck: bool) returns (r: Result<int>)
      requires Valid() && Unhashed(board.State()) in reach && ply < maxDepth && depth >= 1 && ply <= pvLength[ply]
      modifies this, board, killerMoves, pvTable, pvLength
      ensures Valid() && searchNodes >= old(searchNodes) && (old(ply) != 0 ==> bestMove == old(bestMove))
      ensures Above(old(ply)) == old(Above(ply)) && old(ply) <= pvLength[old(ply)]
      ensures r.Success? ==> ply == old(ply) && SamePosition(board.State(), old(board.State())) && Unhashed(board.State()) in reach
      ensures r.Success? && Stalled(game, old(board.State())) ==> r.value == Terminal(inCheck, checkmate, stalemate, old(ply))
      ensures r.Success? && !Stalled(game, old(board.State())) && alpha <= beta ==> alpha <= r.value <= beta
      ensures r.Success? && !Stalled(game, old(board.State())) && alpha < r.value < beta ==> PvFound(old(board.State()))
      decreases maxDepth + 1 - ply, 0, 5
    {
      ghost var st := board.State();
      var moves := OrderMoves();
      ghost var cut;
      r, cut := NegamaxLoop(moves, alpha, beta, depth, inCheck, st);
    }

    /**
     * negamax's null move: the side to move passes and the en-passant square
     * is cleared, the reply is searched with a null window at beta and the
     * depth reduced by REDUCTION_LIMIT, and the board is copied back. The
     * answer is whether passing alone already reaches beta.
     */
    method NullMoveCut(beta: int, depth: nat) returns (r: Result<bool>)
      requires Valid() && Unhashed(board.State()) in reach && 0 < ply < maxDepth && depth >= reductionLimit
      modifies this, board, killerMoves, pvTable, pvLength
      ensures Valid() && searchNodes >= old(searchNodes) && bestMove == old(bestMove)
      ensures Above(old(ply)) == old(Above(ply))
      ensures old(ply) <= pvLength[old(ply)]
      ensures r.Success? ==> ply == old(ply) && board.State() == old(board.State())
      decreases maxDepth + 1 - ply, depth, 1
    {
      var nullMoveTemporaryBoard := board.State();
      board.SwitchSideToMove();
      board.ResetEnPassantSquareIndex();
      assert board.State() == NullMove(nullMoveTemporaryBoard);
      var score := Negamax(-beta, -beta + 1, depth - reductionLimit);
      if score.Failure? {
        return Failure(score.error);
      }
      board.CopyFrom(nullMoveTemporaryBoard);
      r := Success(-score.value >= beta);
    }

    /**
     * generateMoves, then setPVScore while the last principal variation is
     * followed, then sortMoves: the moves of the position in search order.
     */
    method OrderMoves() returns (moves: MoveList)
      requires Valid() && ply < maxDepth && Unhashed(board.State()) in reach
      modifies this`fPVScore, this`fPVFollow
      ensures Valid() && fresh(moves) && fresh(moves.moves) && moves.Valid()
      ensures forall m :: m in moves.Contents() <==> m in game.generate(board.State())
    {
      ghost var st := board.State();
      moves := GenerateThrough(attacks, game, board.State());
      if fPVFollow {
        SetPVScore(moves);
      }
      var o := SortMoves(moves);
      SortedMembers(SortKey(o), game.generate(st));
    }

    /**
     * negamax's loop over the sorted moves. A score at beta or above cuts
     * the node off, a quiet move becoming the first killer; one above
     * alpha raises alpha and records the move, followed by the line found
     * below it, as this ply's principal variation. With no legal move the
     * node is mated when in check and stalemated otherwise.
     */
    method NegamaxLoop(moves: MoveList, a: int, beta: int, depth: nat, inCheck: bool, ghost st: BoardState)
      returns (r: Result<int>, ghost cut: Cut)
      requires Valid() && Unhashed(st) in reach && WellFormed(st) && SamePosition(board.State(), st) && ply < maxDepth && depth >= 1
      requires moves.Valid() && moves.moves as object != pvLength && forall m :: m in moves.Contents() <==> m in game.generate(st)
      requires ply <= pvLength[ply]
      modifies this, board, killerMoves, pvTable, pvLength
      ensures Valid() && searchNodes >= old(searchNodes) && (old(ply) != 0 ==> bestMove == old(bestMove))
      ensures Above(old(ply)) == old(Above(ply))
      ensures old(ply) <= pvLength[old(ply)]
      ensures r.Success? ==> ply == old(ply) && SamePosition(board.State(), st) && Unhashed(board.State()) in reach
      ensures r.Success? && Stalled(game, st) ==> r.value == Terminal(inCheck, checkmate, stalemate, old(ply))
      ensures r.Success? && !Stalled(game, st) && a <= beta ==> a <= r.value <= beta
      ensures r.Success? && !Stalled(game, st) && a < r.value < beta ==> PvFound(st)
      ensures cut.NoCut? ==> Killers(old(ply)) == old(Killers(ply))
      ensures cut.CutBy? ==>
        r == Success(beta) && cut.move in game.generate(st) && Legal(game, st, cut.move) &&
        Killers(old(ply)) == if IsCapture(cut.move) then old(Killers(ply)) else (cut.move, old(killerMoves[0, ply]))
      decreases maxDepth + 1 - ply, 0, 4
    {
      ghost var sorted := moves.Contents();
      cut := NoCut;
      var alpha := a;
      var legalMoves, movesSearched := 0, 0;
      var moveIndex := 0;
      while moveIndex < moves.count
        invariant Valid() && ply == old(ply) && Unhashed(board.State()) in reach && SamePosition(board.State(), st)
        invariant searchNodes >= old(searchNodes) && (ply != 0 ==> bestMove == old(bestMove))
        invariant Above(ply) == old(Above(ply)) && Killers(ply) == old(Killers(ply))
        invariant ply <= pvLength[ply]
        invariant 0 <= moveIndex <= moves.count && moves.Contents() == sorted
        invariant legalMoves == movesSearched && (legalMoves == 0 <==> forall k :: 0 <= k < moveIndex ==> !Legal(game, st, sorted[k]))
        invariant alpha == a || (a < alpha < beta && legalMoves > 0 && PvFound(st))
      {
        var move := moves.moves[moveIndex];
        assert move == sorted[moveIndex] && move in game.generate(st);
        var step := NegamaxMove(move, alpha, beta, depth, inCheck, movesSearched, st);
        if step.Failure? {
          return Failure(step.error), NoCut;
        } else if step.value.Cutoff? {
          return Success(beta), CutBy(move);
        }
        if step.value.Raised? {
          alpha := step.value.score;
        }
        if !step.value.Illegal? {
          legalMoves, movesSearched := legalMoves + 1, movesSearched + 1;
        }
        moveIndex := moveIndex + 1;
      }
      NoneLegal(game, st, sorted);
      if legalMoves == 0 {
        r := Success(if inCheck then checkmate + ply else stalemate);
      } else {
        r := Success(alpha);
      }
    }

    /** The killer moves at ply p, first and second. */
    ghost function Killers(p: int): (k: (Move, Move))
      requires Shaped() && 0 <= p < maxDepth
      reads killerMoves
      ensures k.0 == killerMoves[0, p] && k.1 == killerMoves[1, p]
    {
      (killerMoves[0, p], killerMoves[1, p])
    }

    /**
     * One move of negamax's loop, searched and weighed: rejected by
     * makeMove; searched without reaching alpha; raising alpha, the move
     * then heading this ply's principal variation; or reaching beta, a
     * quiet move then becoming the first killer.
     */
    method NegamaxMove(move: Move, alpha: int, beta: int, depth: nat, inCheck: bool, movesSearched: nat, ghost st: BoardState)
      returns (r: Result<Step>)
      requires Valid() && ply < maxDepth && depth >= 1 && Unhashed(st) in reach && WellFormed(st) && move in game.generate(st)
      requires SamePosition(board.State(), st) && ply <= pvLength[ply]
      modifies this, board, killerMoves, pvTable, pvLength
      ensures Valid() && searchNodes >= old(searchNodes) && (old(ply) != 0 ==> bestMove == old(bestMove))
      ensures Above(old(ply)) == old(Above(ply)) && old(ply) <= pvLength[old(ply)]
      ensures r.Success? ==> ply == old(ply) && SamePosition(board.State(), st) && Unhashed(board.State()) in reach
      ensures r.Success? ==> (r.value.Illegal? <==> !Legal(game, st, move))
      ensures r.Success? && r.value.Raised? ==> alpha < r.value.score < beta && PvFound(st)
      ensures r.Success? && (r.value.Illegal? || r.value.Searched?) ==> bestMove == old(bestMove) && AtPly(old(ply)) == old(AtPly(ply))
      ensures !(r.Success? && r.value.Cutoff?) ==> Killers(old(ply)) == old(Killers(ply))
      ensures r.Success? && r.value.Cutoff? ==>
        Killers(old(ply)) == if IsCapture(move) then old(Killers(ply)) else (move, old(killerMoves[0, ply]))
      decreases maxDepth + 1 - ply, 0, 3
    {
      AbovePrefix(ply);
      var pass := NegamaxPass(move, alpha, beta, depth, inCheck, movesSearched, st);
      if pass.Failure? {
        return Failure(pass.error);
      }
      AbovePrefix(ply);
      if pass.value.Skipped? {
        return Success(Illegal);
      }
      var score := pass.value.score;
      if score >= beta {
        if !IsCapture(move) {
          StoreKiller(move);
        }
        return Success(Cutoff);
      }
      if score > alpha {
        RecordPV(move);
        return Success(Raised(score));
      }
      r := Success(Searched);
    }

    /** A quiet move that cut the search off becomes the first killer at this ply, and the old first killer the second. */
    method StoreKiller(move: Move)
      requires Valid() && ply < maxDepth
      modifies killerMoves
      ensures Valid() && Above(ply) == old(Above(ply))
      ensures killerMoves[0, ply] == move && killerMoves[1, ply] == old(killerMoves[0, ply])
    {
      killerMoves[1, ply] := killerMoves[0, ply];
      killerMoves[0, ply] := move;
      forall q | 0 <= q < ply
        ensures AtPly(q) == old(AtPly(q))
      {
        assert AtPly(q).line == old(AtPly(q)).line;
      }
    }

    /**
     * The principal-variation update on a raised alpha (SplicePV); at the
     * root the move also becomes bestMove.
     */
    method RecordPV(move: Move)
      requires Valid() && ply < maxDepth && ply + 1 <= ChildLength(pvLength, ply)
      modifies this`bestMove, pvTable, pvLength
      ensures Valid() && Above(ply) == old(Above(ply))
      ensures pvTable[ply, ply] == move && ply < pvLength[ply]
      ensures PvLine(pvTable, pvLength, ply) == [move] + (if ply + 1 < maxDepth then old(PvLine(pvTable, pvLength, ply + 1)) else [])
      ensures bestMove == if ply == 0 then move else old(bestMove)
    {
      SplicePV(pvTable, pvLength, ply, move);
      assert PvLine(pvTable, pvLength, ply)[0] == move;
      if ply == 0 {
        bestMove := move;
      }
      forall q | 0 <= q < ply
        ensures AtPly(q) == old(AtPly(q))
      {
        assert AtPly(q).line == old(AtPly(q)).line;
      }
    }

    /**
     * One pass of negamax's loop: copy the board, advance ply and play the
     * move; a move makeMove rejects is skipped, an accepted one is searched
     * below and the board copied back.
     */
    method NegamaxPass(move: Move, alpha: int, beta: int, depth: nat, inCheck: bool, movesSearched: nat, ghost st: BoardState)
      returns (r: Result<Reply>)
      requires Valid() && ply < maxDepth && depth >= 1 && Unhashed(st) in reach && WellFormed(st) && move in game.generate(st)
      requires SamePosition(board.State(), st)
      modifies this, board, killerMoves, pvTable, pvLength
      ensures Valid() && searchNodes >= old(searchNodes) && bestMove == old(bestMove)
      ensures Above(old(ply) + 1) == old(Above(ply + 1))
      ensures r.Success? ==> ply == old(ply) && SamePosition(board.State(), st) && Unhashed(board.State()) in reach
      ensures r.Success? ==> (r.value.Scored? <==> Legal(game, st, move))
      ensures r.Success? && r.value.Scored? ==> old(ply) + 1 <= ChildLength(pvLength, old(ply))
      decreases maxDepth + 1 - ply, 0, 2
    {
      StaysInReach(game, reach, st, board.State(), move);
      var temporaryBoard := board.State();
      MovesPlayable(game, st);
      LegalIgnoresHash(game, st, temporaryBoard, move);
      ply := ply + 1;
      var made := Play(move);
      PlayAnswers(game, temporaryBoard, Fields(move));
      if made.Failure? {
        r := Failure(made.error);
      } else if made.value == 0 {
        ply := ply - 1;
        r := Success(Skipped);
      } else {
        r := NegamaxReply(move, alpha, beta, depth, inCheck, movesSearched, temporaryBoard);
      }
    }

    /** The accepted-move part of that pass: the search below the move, then ply stepped back and the board copied back. */
    method NegamaxReply(move: Move, alpha: int, beta: int, depth: nat, inCheck: bool, movesSearched: nat, saved: BoardState)
      returns (r: Result<Reply>)
      requires Valid() && 1 <= ply <= maxDepth && depth >= 1 && Unhashed(board.State()) in reach && WellFormed(saved)
      modifies this, board, killerMoves, pvTable, pvLength
      ensures Valid() && searchNodes >= old(searchNodes) && bestMove == old(bestMove)
      ensures Above(old(ply)) == old(Above(ply))
      ensures r.Success? ==> r.value.Scored? && ply == old(ply) - 1 && board.State() == saved
      ensures r.Success? && old(ply) < maxDepth ==> old(ply) <= pvLength[old(ply)]
      decreases maxDepth + 2 - ply, 0, 1
    {
      var score := NegamaxLadder(move, alpha, beta, depth, inCheck, movesSearched);
      if score.Failure? {
        return Failure(score.error);
      }
      ply := ply - 1;
      board.CopyFrom(saved);
      r := Success(Scored(score.value));
    }

    /**
     * The search below an accepted move, with ply already advanced: the
     * first legal move gets the full window; a later one a reduced
     * null-window search when it is late, quiet and not a promotion and the
     * side is not in check, then a null-window search at full depth when
     * that beats alpha, and a full-window search when that lands inside the
     * window. The score is negated back to the side that moved.
     */
    method NegamaxLadder(move: Move, alpha: int, beta: int, depth: nat, inCheck: bool, movesSearched: nat) returns (r: Result<int>)
      requires Valid() && 1 <= ply <= maxDepth && depth >= 1 && Unhashed(board.State()) in reach
      modifies this, board, killerMoves, pvTable, pvLength
      ensures Valid() && searchNodes >= old(searchNodes) && bestMove == old(bestMove)
      ensures Above(old(ply)) == old(Above(ply))
      ensures old(ply) < maxDepth ==> old(ply) <= pvLength[old(ply)]
      ensures r.Success? ==> ply == old(ply) && SamePosition(board.State(), old(board.State())) && Unhashed(board.State()) in reach
      decreases maxDepth + 2 - ply, 0, 0
    {
      if movesSearched == 0 {
        var child := Negamax(-beta, -alpha, depth - 1);
        if child.Failure? {
          return Failure(child.error);
        }
        return Success(-child.value);
      }
      var score: int;
      if movesSearched >= fullDepthMoves && depth >= reductionLimit && !inCheck && !IsCapture(move) && GetPromotedPiece(move) == 0 {
        var reduced := Negamax(-alpha - 1, -alpha, depth - 2);
        if reduced.Failure? {
          return Failure(reduced.error);
        }
        score := -reduced.value;
      } else {
        score := alpha + 1;
      }
      if score > alpha {
        var narrow := Negamax(-alpha - 1, -alpha, depth - 1);
        if narrow.Failure? {
          return Failure(narrow.error);
        }
        score := -narrow.value;
        if score > alpha && score < beta {
          var full := Negamax(-beta, -alpha, depth - 1);
          if full.Failure? {
            return Failure(full.error);
          }
          score := -full.value;
        }
      }
      r := Success(score);
    }

    /** resetSearchVariables: bestMove, the node count and ply back to 0, and every table zeroed. */
    method ResetSearchVariables()
      requires Valid()
      modifies this, killerMoves, historyMoves, pvTable, pvLength
      ensures Valid() && bestMove == 0 && searchNodes == 0 && ply == 0
      ensures fPVScore == old(fPVScore) && fPVFollow == old(fPVFollow)
      ensures forall k, p :: 0 <= k < 2 && 0 <= p < maxDepth ==> killerMoves[k, p] == 0
      ensures forall p, s :: 0 <= p < 12 && 0 <= s < 64 ==> historyMoves[p, s] == 0
      ensures forall p, c :: 0 <= p < maxDepth && 0 <= c < maxDepth ==> pvTable[p, c] == 0
      ensures forall p :: 0 <= p < maxDepth ==> pvLength[p] == 0
    {
      bestMove, searchNodes, ply := 0, 0, 0;
      ClearMoves(killerMoves);
      ClearScores(historyMoves);
      ClearMoves(pvTable);
      ClearLengths(pvLength);
      assert unchanged(attacks.pawnAttacks, attacks.knightAttacks, attacks.kingAttacks, attacks.bishopAttacks, attacks.rookAttacks,
                       attacks.bishopMasks, attacks.rookMasks, attacks.bishopMagics, attacks.rookMagics);
    }
  }
}
