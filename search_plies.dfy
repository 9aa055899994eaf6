/**
 * The rows of the ply-indexed tables (pvLength, pvTable, killerMoves) that
 * one line of the search touches, as main.cpp indexes them and as this
 * model does.
 *
 * Along a line, negamax writes pvLength[ply] on entry, goes into
 * quiescence when its depth is spent, stops at the evaluation once ply
 * passes MAX_SEARCH_DEPTH - 1, and otherwise plays a move at ply + 1.
 * Each quiescence node sorts its moves, which reads killerMoves[0][ply]
 * for every quiet move, and searches each capture at ply + 1, with no
 * bound on ply. `captures` is the number of captures the line plays once
 * in quiescence.
 */
module SearchPlies {

  /** The rows a quiescence line of `captures` captures from `ply` reads, as written: one per node, without bound. */
  function QuiescenceRowsAsWritten(ply: int, captures: nat): set<int>
    decreases captures
  {
    {ply} + if captures == 0 then {} else QuiescenceRowsAsWritten(ply + 1, captures - 1)
  }

  /**
   * The rows a negamax line from `ply` with `depth` to go touches, as
   * written: the depth test comes before the ply guard, so a line whose
   * depth runs out at ply == MAX_SEARCH_DEPTH writes pvLength[ply] and
   * enters quiescence there.
   */
  function RowsAsWritten(ply: int, depth: nat, max: int, captures: nat): set<int>
    decreases depth
  {
    if depth == 0 then {ply} + QuiescenceRowsAsWritten(ply, captures)
    else if ply > max - 1 then {ply}
    else {ply} + RowsAsWritten(ply + 1, depth - 1, max, captures)
  }

  /** As written, quiescence reads a row for every capture of the line: the last is `captures` rows on. */
  lemma {:induction false} QuiescenceReachesEnd(ply: int, captures: nat)
    ensures ply + captures in QuiescenceRowsAsWritten(ply, captures)
    decreases captures
  {
    if captures > 0 {
      QuiescenceReachesEnd(ply + 1, captures - 1);
    }
  }

  /** As written, a line from `ply` with just enough depth to reach row `max` touches it. */
  lemma {:induction false} ReachesMax(ply: int, max: int, captures: nat)
    requires ply <= max
    ensures max in RowsAsWritten(ply, max - ply, max, captures)
    decreases max - ply
  {
    if ply < max {
      ReachesMax(ply + 1, max, captures);
    }
  }

  /**
   * The out-of-bounds accesses: a search of depth MAX_SEARCH_DEPTH from the
   * root touches row MAX_SEARCH_DEPTH (pvLength[MAX_SEARCH_DEPTH] written,
   * killerMoves[0][MAX_SEARCH_DEPTH] read), and a line that enters
   * quiescence at the last row and plays one capture reads one row past it.
   */
  lemma RowsOverflow(max: int)
    requires max >= 1
    ensures max in RowsAsWritten(0, max, max, 0)
    ensures max in RowsAsWritten(0, max - 1, max, 1)
  {
    ReachesMax(0, max, 0);
    QuiescenceReachesEnd(max - 1, 1);
    RowsReachQuiescence(0, max - 1, max, 1);
  }

  /** A line whose depth runs out before the guard touches every row quiescence reads from where it ends. */
  lemma {:induction false} RowsReachQuiescence(ply: int, depth: nat, max: int, captures: nat)
    requires ply + depth <= max
    ensures QuiescenceRowsAsWritten(ply + depth, captures) <= RowsAsWritten(ply, depth, max, captures)
    decreases depth
  {
    if depth > 0 {
      RowsReachQuiescence(ply + 1, depth - 1, max, captures);
    }
  }

  // ---------------------------------------------------------------------
  // The bounded discipline of this model
  // ---------------------------------------------------------------------

  /** The rows a quiescence line reads in this model: it stands pat, touching nothing, from row `max` on. */
  function QuiescenceRows(ply: int, max: int, captures: nat): set<int>
    decreases captures
  {
    if ply >= max then {}
    else {ply} + if captures == 0 then {} else QuiescenceRows(ply + 1, max, captures - 1)
  }

  /** The rows a negamax line touches in this model: from row `max` on it touches none. */
  function Rows(ply: int, depth: nat, max: int, captures: nat): set<int>
    decreases depth
  {
    if ply >= max then {}
    else if depth == 0 then {ply} + QuiescenceRows(ply, max, captures)
    else {ply} + Rows(ply + 1, depth - 1, max, captures)
  }

  /** Every row a bounded quiescence line reads lies in the table. */
  lemma {:induction false} QuiescenceRowsInTable(ply: int, max: int, captures: nat)
    requires 0 <= ply
    ensures forall k :: k in QuiescenceRows(ply, max, captures) ==> ply <= k < max
    decreases captures
  {
    if ply < max && captures > 0 {
      QuiescenceRowsInTable(ply + 1, max, captures - 1);
    }
  }

  /** Every row a bounded line touches, from any ply of the table, lies in the table. */
  lemma {:induction false} RowsInTable(ply: int, depth: nat, max: int, captures: nat)
    requires 0 <= ply
    ensures forall k :: k in Rows(ply, depth, max, captures) ==> ply <= k < max
    decreases depth
  {
    if ply < max {
      if depth == 0 {
        QuiescenceRowsInTable(ply, max, captures);
      } else {
        RowsInTable(ply + 1, depth - 1, max, captures);
      }
    }
  }

  /** Inside the table the bound changes nothing: a quiescence line that ends before row `max` reads the same rows. */
  lemma {:induction false} QuiescenceRowsAgree(ply: int, max: int, captures: nat)
    requires ply + captures < max
    ensures QuiescenceRows(ply, max, captures) == QuiescenceRowsAsWritten(ply, captures)
    decreases captures
  {
    if captures > 0 {
      QuiescenceRowsAgree(ply + 1, max, captures - 1);
    }
  }

  /** Inside the table the bound changes nothing: a line that ends before row `max` touches the same rows. */
  lemma {:induction false} RowsAgree(ply: int, depth: nat, max: int, captures: nat)
    requires ply + depth + captures < max
    ensures Rows(ply, depth, max, captures) == RowsAsWritten(ply, depth, max, captures)
    decreases depth
  {
    if depth == 0 {
      QuiescenceRowsAgree(ply, max, captures);
    } else {
      RowsAgree(ply + 1, depth - 1, max, captures);
    }
  }
}
