/**
 * Move ordering of the search (main.cpp, class Position): scoreMove and
 * the in-place merge sort that orders a move list by it.
 *
 * scoreMove reads the position's search tables and the board; Ordering
 * is a snapshot of everything it reads, so the score is a pure function
 * of the snapshot and the move. The engine's scoreMove also clears
 * fPVScore the first time it meets the principal-variation move; the sort
 * below scores with the flag as it was when the sort began (Position
 * applies the flag's reset itself).
 *
 * merge takes the left element only when its score is strictly greater,
 * so on ties the right element goes first and the sort is not stable.
 */
module MoveOrdering {
  import opened Bitboards
  import opened Geometry
  import opened MoveEncoding
  import opened BoardStates
  import MakeMoves

  /** The fixed scores of scoreMove. */
  const PV_SCORE := 20000
  const CAPTURE_BONUS := 10000
  const FIRST_KILLER_SCORE := 9000
  const SECOND_KILLER_SCORE := 8000

  /** What scoreMove reads: fPVScore, pvTable[0][ply], killerMoves[0..1][ply], historyMoves, MVV_LVA and the board. */
  datatype Ordering = Ordering(
    followPV: bool,
    pvMove: Move,
    firstKiller: Move,
    secondKiller: Move,
    history: seq<seq<int>>,
    mvvLva: seq<seq<int>>,
    bitboards: seq<Bitboard>,
    side: int)

  /** historyMoves is 12 x 64, MVV_LVA is 12 x 12, twelve piece boards and a side to move. */
  predicate OrderingShaped(o: Ordering)
  {
    |o.history| == 12 && (forall p :: 0 <= p < 12 ==> |o.history[p]| == 64) &&
    |o.mvvLva| == 12 && (forall p :: 0 <= p < 12 ==> |o.mvvLva[p]| == 12) &&
    |o.bitboards| == 12 && (o.side == WHITE || o.side == BLACK)
  }

  /** scoreMove indexes its tables by the moving piece, so the piece must be one of the twelve. */
  predicate Scorable(move: Move)
  {
    GetPiece(move) < 12
  }

  predicate AllScorable(moves: seq<Move>)
  {
    forall m :: m in moves ==> Scorable(m)
  }

  /**
   * The key the sort orders by: scoreMove's score. Every generated move
   * has one of the twelve pieces; a move outside them is given 0 so that
   * the sort below can be stated for any sequence.
   */
  function SortKey(o: Ordering): Move -> int
    requires OrderingShaped(o)
  {
    (m: Move) => if Scorable(m) then Score(o, m) else 0
  }

  /**
   * The victim loop of scoreMove: the first piece from `p` to `last` whose
   * board holds square t, or 0 (targetPiece's initial value) when none does.
   */
  function VictimFrom(boards: seq<Bitboard>, t: int, p: int, last: int): (r: int)
    requires |boards| == 12 && 0 <= t < 64 && 0 <= p <= last + 1 && last < 12
    ensures (forall q :: p <= q <= last ==> t !in Squares(boards[q])) ==> r == 0
    ensures (exists q :: p <= q <= last && t in Squares(boards[q])) ==>
      p <= r <= last && t in Squares(boards[r]) && forall q :: p <= q < r ==> t !in Squares(boards[q])
    decreases last + 1 - p
  {
    if p > last then 0
    else if GetBit(boards[p], t) == 1 then p
    else VictimFrom(boards, t, p + 1, last)
  }

  /** The captured piece scoreMove looks up: the lowest opposing piece on the target square, 0 if the square is empty. */
  function Victim(o: Ordering, t: int): int
    requires OrderingShaped(o) && 0 <= t < 64
  {
    VictimFrom(o.bitboards, t, MakeMoves.FirstVictim(o.side), MakeMoves.LastVictim(o.side))
  }

  /**
   * scoreMove: the principal-variation move first, then captures by
   * MVV_LVA, then the two killer moves, then the history table.
   */
  function Score(o: Ordering, move: Move): int
    requires OrderingShaped(o) && Scorable(move)
  {
    var piece := GetPiece(move);
    var target := GetTargetSquareIndex(move);
    if o.followPV && o.pvMove == move then PV_SCORE
    else if IsCapture(move) then o.mvvLva[piece][Victim(o, target)] + CAPTURE_BONUS
    else if o.firstKiller == move then FIRST_KILLER_SCORE
    else if o.secondKiller == move then SECOND_KILLER_SCORE
    else o.history[piece][target]
  }

  /** Ordered by non-increasing key. */
  predicate Descending(key: Move -> int, s: seq<Move>)
  {
    forall i, j :: 0 <= i < j < |s| ==> key(s[i]) >= key(s[j])
  }

  // ---------------------------------------------------------------------
  // The merge and the sort on sequences
  // ---------------------------------------------------------------------

  /** merge on values: the left head goes first only when its key is strictly greater. */
  function MergeBy(key: Move -> int, left: seq<Move>, right: seq<Move>): (r: seq<Move>)
    ensures |r| == |left| + |right|
    decreases |left| + |right|
  {
    if left == [] then right
    else if right == [] then left
    else if key(left[0]) > key(right[0]) then [left[0]] + MergeBy(key, left[1..], right)
    else [right[0]] + MergeBy(key, left, right[1..])
  }

  /** Where mergeSort splits a run of n >= 2 moves: the left half takes the middle element. */
  function Half(n: int): int
  {
    (n - 1) / 2 + 1
  }

  /** mergeSort on values, splitting as mergeSort splits its index range. */
  function SortBy(key: Move -> int, s: seq<Move>): (r: seq<Move>)
    ensures |r| == |s|
    decreases |s|
  {
    if |s| <= 1 then s
    else MergeBy(key, SortBy(key, s[..Half(|s|)]), SortBy(key, s[Half(|s|)..]))
  }

  // ---------------------------------------------------------------------
  // What the merge and the sort promise
  // ---------------------------------------------------------------------

  /** The merge neither loses nor invents a move. */
  lemma {:induction false} MergePermutes(key: Move -> int, left: seq<Move>, right: seq<Move>)
    ensures multiset(MergeBy(key, left, right)) == multiset(left) + multiset(right)
    decreases |left| + |right|
  {
    if left != [] && right != [] {
      if key(left[0]) > key(right[0]) {
        MergePermutes(key, left[1..], right);
        assert MergeBy(key, left, right) == [left[0]] + MergeBy(key, left[1..], right);
        assert left == [left[0]] + left[1..];
      } else {
        MergePermutes(key, left, right[1..]);
        assert MergeBy(key, left, right) == [right[0]] + MergeBy(key, left, right[1..]);
        assert right == [right[0]] + right[1..];
      }
    }
  }

  /** The first move of a merge of two non-empty runs is the head of one of them. */
  lemma MergeHead(key: Move -> int, left: seq<Move>, right: seq<Move>)
    requires left != [] && right != []
    ensures MergeBy(key, left, right)[0] == if key(left[0]) > key(right[0]) then left[0] else right[0]
  {
  }

  /** A descending run stays descending behind a first element whose key is at least its head's. */
  lemma PrependDescending(key: Move -> int, x: Move, s: seq<Move>)
    requires Descending(key, s) && (s != [] ==> key(x) >= key(s[0]))
    ensures Descending(key, [x] + s)
  {
    var t := [x] + s;
    forall i, j | 0 <= i < j < |t|
      ensures key(t[i]) >= key(t[j])
    {
      if i == 0 {
        assert t[j] == s[j - 1];
        if j > 1 {
          assert key(s[0]) >= key(s[j - 1]);
        }
      } else {
        assert t[i] == s[i - 1] && t[j] == s[j - 1];
      }
    }
  }

  /** A descending run without its head is descending. */
  lemma DropDescending(key: Move -> int, s: seq<Move>)
    requires Descending(key, s) && s != []
    ensures Descending(key, s[1..])
  {
    var t := s[1..];
    forall i, j | 0 <= i < j < |t|
      ensures key(t[i]) >= key(t[j])
    {
      assert t[i] == s[i + 1] && t[j] == s[j + 1];
    }
  }

  /** Merging two descending runs gives a descending run. */
  lemma {:induction false} MergeDescends(key: Move -> int, left: seq<Move>, right: seq<Move>)
    requires Descending(key, left) && Descending(key, right)
    ensures Descending(key, MergeBy(key, left, right))
    decreases |left| + |right|
  {
    if left != [] && right != [] {
      if key(left[0]) > key(right[0]) {
        DropDescending(key, left);
        MergeDescends(key, left[1..], right);
        if left[1..] != [] {
          MergeHead(key, left[1..], right);
          assert key(left[0]) >= key(left[1]);
        }
        PrependDescending(key, left[0], MergeBy(key, left[1..], right));
      } else {
        DropDescending(key, right);
        MergeDescends(key, left, right[1..]);
        if right[1..] != [] {
          MergeHead(key, left, right[1..]);
          assert key(right[0]) >= key(right[1]);
        }
        PrependDescending(key, right[0], MergeBy(key, left, right[1..]));
      }
    }
  }

  /**
   * mergeSort's promise: the result is a permutation of the input ordered
   * by non-increasing key.
   */
  lemma {:induction false} SortPermutesAndDescends(key: Move -> int, s: seq<Move>)
    ensures multiset(SortBy(key, s)) == multiset(s)
    ensures Descending(key, SortBy(key, s))
    decreases |s|
  {
    if |s| > 1 {
      var k := Half(|s|);
      assert s == s[..k] + s[k..];
      SortPermutesAndDescends(key, s[..k]);
      SortPermutesAndDescends(key, s[k..]);
      MergePermutes(key, SortBy(key, s[..k]), SortBy(key, s[k..]));
      MergeDescends(key, SortBy(key, s[..k]), SortBy(key, s[k..]));
    }
  }

  /** Ties go right: of two moves with equal keys, merge emits the right one first. */
  lemma TiesTakeRight(key: Move -> int, a: Move, b: Move)
    requires key(a) == key(b)
    ensures MergeBy(key, [a], [b]) == [b, a]
  {
  }

  /** On a move of one of the twelve pieces, the sort key is scoreMove's score. */
  lemma SortKeyIsScore(o: Ordering, m: Move)
    requires OrderingShaped(o) && Scorable(m)
    ensures SortKey(o)(m) == Score(o, m)
  {
  }

  /**
   * The score tiers, with MVV_LVA entries below 10000 and history entries
   * below 8000: the PV move, then captures, then the two killers, then the rest.
   */
  lemma ScoreTiers(o: Ordering, move: Move)
    requires OrderingShaped(o) && Scorable(move)
    requires forall p, q :: 0 <= p < 12 && 0 <= q < 12 ==> 0 <= o.mvvLva[p][q] < PV_SCORE - CAPTURE_BONUS
    requires forall p, t :: 0 <= p < 12 && 0 <= t < 64 ==> o.history[p][t] < SECOND_KILLER_SCORE
    ensures o.followPV && o.pvMove == move ==> Score(o, move) == PV_SCORE
    ensures !(o.followPV && o.pvMove == move) ==> Score(o, move) < PV_SCORE
    ensures !(o.followPV && o.pvMove == move) && IsCapture(move) ==> Score(o, move) >= CAPTURE_BONUS
    ensures !(o.followPV && o.pvMove == move) && !IsCapture(move) ==> Score(o, move) < CAPTURE_BONUS
    ensures !(o.followPV && o.pvMove == move) && !IsCapture(move) && move != o.firstKiller && move != o.secondKiller ==>
      Score(o, move) < SECOND_KILLER_SCORE
  {
    var victim := Victim(o, GetTargetSquareIndex(move));
    assert 0 <= victim < 12;
  }

  // ---------------------------------------------------------------------
  // merge and mergeSort in place
  // ---------------------------------------------------------------------

  /** A copy loop of merge: a fresh array holding a[from .. from + n). */
  method CopyRun(moveArray: array<Move>, from: int, n: int) returns (run: array<Move>)
    requires 0 <= from && 0 <= n && from + n <= moveArray.Length
    ensures fresh(run) && run[..] == moveArray[from..from + n]
  {
    run := new Move[n];
    var i := 0;
    while i < n
      invariant 0 <= i <= n
      invariant run[..i] == moveArray[from..from + i]
    {
      run[i] := moveArray[from + i];
      i := i + 1;
    }
  }

  /** What is left to merge once i left and j right moves are placed. */
  function Rest(key: Move -> int, left: seq<Move>, right: seq<Move>, i: int, j: int): seq<Move>
    requires 0 <= i <= |left| && 0 <= j <= |right|
  {
    MergeBy(key, left[i..], right[j..])
  }

  /** One step of the merge loop takes the left head when its key is strictly greater. */
  lemma MergeStep(key: Move -> int, left: seq<Move>, right: seq<Move>, i: int, j: int)
    requires 0 <= i < |left| && 0 <= j < |right|
    ensures Rest(key, left, right, i, j) ==
      if key(left[i]) > key(right[j]) then [left[i]] + Rest(key, left, right, i + 1, j)
      else [right[j]] + Rest(key, left, right, i, j + 1)
  {
    assert left[i..][1..] == left[i + 1..];
    assert right[j..][1..] == right[j + 1..];
  }

  /** Once a run is used up, the rest of the merge is the other run. */
  lemma MergeRest(key: Move -> int, left: seq<Move>, right: seq<Move>, i: int, j: int)
    requires 0 <= i <= |left| && 0 <= j <= |right| && (i == |left| || j == |right|)
    ensures Rest(key, left, right, i, j) == left[i..] + right[j..]
  {
  }

  /**
   * merge: the runs a[lo..mid] and a[mid+1..hi] (inclusive bounds, as in
   * the engine) are copied out and merged back into a[lo..hi].
   */
  method Merge(key: Move -> int, moveArray: array<Move>, leftIndex: int, middleIndex: int, rightIndex: int)
    requires 0 <= leftIndex <= middleIndex < rightIndex < moveArray.Length
    modifies moveArray
    ensures moveArray[leftIndex..rightIndex + 1] ==
      MergeBy(key, old(moveArray[leftIndex..middleIndex + 1]), old(moveArray[middleIndex + 1..rightIndex + 1]))
    ensures moveArray[..leftIndex] == old(moveArray[..leftIndex])
    ensures moveArray[rightIndex + 1..] == old(moveArray[rightIndex + 1..])
  {
    var leftArraySize := middleIndex - leftIndex + 1;
    var rightArraySize := rightIndex - middleIndex;
    var leftArray := CopyRun(moveArray, leftIndex, leftArraySize);
    var rightArray := CopyRun(moveArray, middleIndex + 1, rightArraySize);
    assert leftArray[..] == old(moveArray[leftIndex..middleIndex + 1]);
    assert rightArray[..] == old(moveArray[middleIndex + 1..rightIndex + 1]);
    MergeRuns(key, moveArray, leftArray, rightArray, leftIndex);
    assert leftIndex + leftArray.Length + rightArray.Length == rightIndex + 1;
  }

  /**
   * Merging, part way: i moves of the left run and j of the right run are
   * placed at a[lo ..], and what is still to merge completes them to the
   * merge of the two runs.
   */
  ghost predicate Merging(key: Move -> int, a: seq<Move>, left: seq<Move>, right: seq<Move>, lo: int, i: int, j: int)
  {
    0 <= lo && 0 <= i <= |left| && 0 <= j <= |right| && lo + |left| + |right| <= |a| &&
    a[lo..lo + i + j] + Rest(key, left, right, i, j) == MergeBy(key, left, right)
  }

  /** Placing the next move of what is left to merge keeps Merging. */
  lemma Place(key: Move -> int, before: seq<Move>, after: seq<Move>, left: seq<Move>, right: seq<Move>, lo: int, i: int, j: int, i': int, j': int)
    requires Merging(key, before, left, right, lo, i, j) && i' + j' == i + j + 1 && i <= i' <= |left| && j <= j' <= |right|
    requires lo + i + j < |left| + |right| + lo <= |before| == |after|
    requires after == before[lo + i + j := after[lo + i + j]]
    requires Rest(key, left, right, i, j) == [after[lo + i + j]] + Rest(key, left, right, i', j')
    ensures Merging(key, after, left, right, lo, i', j')
    ensures after[..lo] == before[..lo] && after[lo + |left| + |right|..] == before[lo + |left| + |right|..]
  {
    var k := lo + i + j;
    assert after[lo..k + 1] == before[lo..k] + [after[k]];
  }

  /** Once the right run is used up, the next move placed is the left run's next. */
  lemma PlaceLeftTail(key: Move -> int, before: seq<Move>, after: seq<Move>, left: seq<Move>, right: seq<Move>, lo: int, i: int, j: int)
    requires Merging(key, before, left, right, lo, i, j) && i < |left| && j == |right|
    requires |before| == |after| && after == before[lo + i + j := left[i]]
    ensures Merging(key, after, left, right, lo, i + 1, j)
    ensures after[..lo] == before[..lo] && after[lo + |left| + |right|..] == before[lo + |left| + |right|..]
  {
    MergeRest(key, left, right, i, j);
    MergeRest(key, left, right, i + 1, j);
    assert left[i..] == [left[i]] + left[i + 1..];
    Place(key, before, after, left, right, lo, i, j, i + 1, j);
  }

  /** Once the left run is used up, the next move placed is the right run's next. */
  lemma PlaceRightTail(key: Move -> int, before: seq<Move>, after: seq<Move>, left: seq<Move>, right: seq<Move>, lo: int, i: int, j: int)
    requires Merging(key, before, left, right, lo, i, j) && i == |left| && j < |right|
    requires |before| == |after| && after == before[lo + i + j := right[j]]
    ensures Merging(key, after, left, right, lo, i, j + 1)
    ensures after[..lo] == before[..lo] && after[lo + |left| + |right|..] == before[lo + |left| + |right|..]
  {
    MergeRest(key, left, right, i, j);
    MergeRest(key, left, right, i, j + 1);
    assert right[j..] == [right[j]] + right[j + 1..];
    Place(key, before, after, left, right, lo, i, j, i, j + 1);
  }

  /** The three loops of merge, writing the merged runs into a[lo ..]. */
  method MergeRuns(key: Move -> int, moveArray: array<Move>, leftArray: array<Move>, rightArray: array<Move>, lo: int)
    requires moveArray != leftArray && moveArray != rightArray
    requires 0 <= lo && lo + leftArray.Length + rightArray.Length <= moveArray.Length
    modifies moveArray
    ensures moveArray[lo..lo + leftArray.Length + rightArray.Length] == MergeBy(key, leftArray[..], rightArray[..])
    ensures moveArray[..lo] == old(moveArray[..lo])
    ensures moveArray[lo + leftArray.Length + rightArray.Length..] == old(moveArray[lo + leftArray.Length + rightArray.Length..])
  {
    ghost var left, right := leftArray[..], rightArray[..];
    assert left[0..] == left && right[0..] == right;
    var i, j := MergeHeads(key, moveArray, leftArray, rightArray, lo, left, right);
    i := LeftTail(key, moveArray, leftArray, lo, i, j, left, right);
    j := RightTail(key, moveArray, rightArray, lo, i, j, left, right);
    assert moveArray[lo..lo + i + j] + [] == moveArray[lo..lo + i + j];
  }

  /** The first loop of merge: place the greater head while both runs last. */
  method MergeHeads(key: Move -> int, moveArray: array<Move>, leftArray: array<Move>, rightArray: array<Move>, lo: int,
                    ghost left: seq<Move>, ghost right: seq<Move>)
    returns (i: int, j: int)
    requires moveArray != leftArray && moveArray != rightArray && leftArray[..] == left && rightArray[..] == right
    requires Merging(key, moveArray[..], left, right, lo, 0, 0)
    modifies moveArray
    ensures Merging(key, moveArray[..], left, right, lo, i, j) && (i == |left| || j == |right|)
    ensures moveArray[..lo] == old(moveArray[..lo])
    ensures moveArray[lo + |left| + |right|..] == old(moveArray[lo + |left| + |right|..])
  {
    var k := lo;
    i, j := 0, 0;
    while i < leftArray.Length && j < rightArray.Length
      invariant Merging(key, moveArray[..], left, right, lo, i, j) && k == lo + i + j
      invariant moveArray[..lo] == old(moveArray[..lo])
      invariant moveArray[lo + |left| + |right|..] == old(moveArray[lo + |left| + |right|..])
    {
      MergeStep(key, left, right, i, j);
      ghost var before := moveArray[..];
      if key(leftArray[i]) > key(rightArray[j]) {
        moveArray[k] := leftArray[i];
        Place(key, before, moveArray[..], left, right, lo, i, j, i + 1, j);
        i := i + 1;
      } else {
        moveArray[k] := rightArray[j];
        Place(key, before, moveArray[..], left, right, lo, i, j, i, j + 1);
        j := j + 1;
      }
      k := k + 1;
    }
  }

  /** The second loop of merge: what is left of the left run. */
  method LeftTail(key: Move -> int, moveArray: array<Move>, leftArray: array<Move>, lo: int, i0: int, j: int,
                  ghost left: seq<Move>, ghost right: seq<Move>)
    returns (i: int)
    requires moveArray != leftArray && leftArray[..] == left
    requires Merging(key, moveArray[..], left, right, lo, i0, j) && (i0 == |left| || j == |right|)
    modifies moveArray
    ensures Merging(key, moveArray[..], left, right, lo, i, j) && i == |left|
    ensures moveArray[..lo] == old(moveArray[..lo])
    ensures moveArray[lo + |left| + |right|..] == old(moveArray[lo + |left| + |right|..])
  {
    var k := lo + i0 + j;
    i := i0;
    while i < leftArray.Length
      invariant Merging(key, moveArray[..], left, right, lo, i, j) && k == lo + i + j
      invariant i < |left| ==> j == |right|
      invariant moveArray[..lo] == old(moveArray[..lo])
      invariant moveArray[lo + |left| + |right|..] == old(moveArray[lo + |left| + |right|..])
    {
      ghost var before := moveArray[..];
      moveArray[k] := leftArray[i];
      PlaceLeftTail(key, before, moveArray[..], left, right, lo, i, j);
      i := i + 1;
      k := k + 1;
    }
  }

  /** The third loop of merge: what is left of the right run. */
  method RightTail(key: Move -> int, moveArray: array<Move>, rightArray: array<Move>, lo: int, i: int, j0: int,
                   ghost left: seq<Move>, ghost right: seq<Move>)
    returns (j: int)
    requires moveArray != rightArray && rightArray[..] == right
    requires Merging(key, moveArray[..], left, right, lo, i, j0) && i == |left|
    modifies moveArray
    ensures Merging(key, moveArray[..], left, right, lo, i, j) && j == |right|
    ensures moveArray[..lo] == old(moveArray[..lo])
    ensures moveArray[lo + |left| + |right|..] == old(moveArray[lo + |left| + |right|..])
  {
    var k := lo + i + j0;
    j := j0;
    while j < rightArray.Length
      invariant Merging(key, moveArray[..], left, right, lo, i, j) && k == lo + i + j
      invariant moveArray[..lo] == old(moveArray[..lo])
      invariant moveArray[lo + |left| + |right|..] == old(moveArray[lo + |left| + |right|..])
    {
      ghost var before := moveArray[..];
      moveArray[k] := rightArray[j];
      PlaceRightTail(key, before, moveArray[..], left, right, lo, i, j);
      j := j + 1;
      k := k + 1;
    }
  }

  /**
   * mergeSort over the inclusive range [leftIndex, rightIndex]; an empty
   * or one-move range is left alone.
   */
  method MergeSort(key: Move -> int, moveArray: array<Move>, leftIndex: int, rightIndex: int)
    requires 0 <= leftIndex <= rightIndex + 1 <= moveArray.Length
    modifies moveArray
    ensures moveArray[leftIndex..rightIndex + 1] == SortBy(key, old(moveArray[leftIndex..rightIndex + 1]))
    ensures moveArray[..leftIndex] == old(moveArray[..leftIndex])
    ensures moveArray[rightIndex + 1..] == old(moveArray[rightIndex + 1..])
    decreases rightIndex - leftIndex
  {
    if leftIndex < rightIndex {
      var middleIndex := leftIndex + (rightIndex - leftIndex) / 2;
      ghost var a0 := moveArray[..];
      MergeSort(key, moveArray, leftIndex, middleIndex);
      ghost var a1 := moveArray[..];
      MergeSort(key, moveArray, middleIndex + 1, rightIndex);
      ghost var a2 := moveArray[..];
      Merge(key, moveArray, leftIndex, middleIndex, rightIndex);
      SortedRange(key, a0, a1, a2, moveArray[..], leftIndex, middleIndex, rightIndex);
    }
  }

  /** The two recursive sorts and the merge sort the whole range and touch nothing outside it. */
  lemma SortedRange(key: Move -> int, a0: seq<Move>, a1: seq<Move>, a2: seq<Move>, a3: seq<Move>, lo: int, mid: int, hi: int)
    requires 0 <= lo <= mid < hi < |a0| == |a1| == |a2| == |a3| && mid == lo + (hi - lo) / 2
    requires a1[lo..mid + 1] == SortBy(key, a0[lo..mid + 1]) && a1[..lo] == a0[..lo] && a1[mid + 1..] == a0[mid + 1..]
    requires a2[mid + 1..hi + 1] == SortBy(key, a1[mid + 1..hi + 1]) && a2[..mid + 1] == a1[..mid + 1] && a2[hi + 1..] == a1[hi + 1..]
    requires a3[lo..hi + 1] == MergeBy(key, a2[lo..mid + 1], a2[mid + 1..hi + 1]) && a3[..lo] == a2[..lo] && a3[hi + 1..] == a2[hi + 1..]
    ensures a3[lo..hi + 1] == SortBy(key, a0[lo..hi + 1])
    ensures a3[..lo] == a0[..lo] && a3[hi + 1..] == a0[hi + 1..]
  {
    SortedHalves(key, a0, a1, a2, lo, mid, hi);
    Untouched(a0, a1, a2, a3, lo, mid, hi);
  }

  /** Each step leaves alone what lies outside its own range, so the three together leave alone what lies outside [lo, hi]. */
  lemma Untouched(a0: seq<Move>, a1: seq<Move>, a2: seq<Move>, a3: seq<Move>, lo: int, mid: int, hi: int)
    requires 0 <= lo <= mid < hi < |a0| == |a1| == |a2| == |a3|
    requires a1[..lo] == a0[..lo] && a1[mid + 1..] == a0[mid + 1..]
    requires a2[..mid + 1] == a1[..mid + 1] && a2[hi + 1..] == a1[hi + 1..]
    requires a3[..lo] == a2[..lo] && a3[hi + 1..] == a2[hi + 1..]
    ensures a3[..lo] == a0[..lo] && a3[hi + 1..] == a0[hi + 1..]
  {
    assert a2[..lo] == a2[..mid + 1][..lo];
    assert a1[..lo] == a1[..mid + 1][..lo];
    assert a1[hi + 1..] == a1[mid + 1..][hi - mid..];
    assert a0[hi + 1..] == a0[mid + 1..][hi - mid..];
  }

  /** After both recursive sorts, merging the two halves sorts the original run. */
  lemma SortedHalves(key: Move -> int, a0: seq<Move>, a1: seq<Move>, a2: seq<Move>, lo: int, mid: int, hi: int)
    requires 0 <= lo <= mid < hi < |a0| == |a1| == |a2| && mid == lo + (hi - lo) / 2
    requires a1[lo..mid + 1] == SortBy(key, a0[lo..mid + 1])
    requires a1[mid + 1..] == a0[mid + 1..]
    requires a2[mid + 1..hi + 1] == SortBy(key, a1[mid + 1..hi + 1])
    requires a2[..mid + 1] == a1[..mid + 1]
    ensures SortBy(key, a0[lo..hi + 1]) == MergeBy(key, a2[lo..mid + 1], a2[mid + 1..hi + 1])
  {
    var s, k := a0[lo..hi + 1], mid + 1 - lo;
    assert Half(|s|) == k;
    assert s[..k] == a0[lo..mid + 1] && s[k..] == a0[mid + 1..hi + 1] by { SplitRange(a0, lo, mid + 1, hi + 1); }
    assert a0[mid + 1..hi + 1] == a1[mid + 1..hi + 1] by { SameSlice(a0, a1, mid + 1, hi + 1); }
    assert a1[lo..mid + 1] == a2[lo..mid + 1] by { SameSlice(a1, a2, lo, mid + 1); }
    assert SortBy(key, s) == MergeBy(key, SortBy(key, s[..k]), SortBy(key, s[k..]));
  }

  /** A range split at m is its two parts. */
  lemma SplitRange(a: seq<Move>, lo: int, m: int, hi: int)
    requires 0 <= lo <= m <= hi <= |a|
    ensures a[lo..hi][..m - lo] == a[lo..m] && a[lo..hi][m - lo..] == a[m..hi]
  {
  }

  /** Sequences that agree on a prefix or on a suffix agree on every range inside it. */
  lemma SameSlice(a: seq<Move>, b: seq<Move>, lo: int, hi: int)
    requires 0 <= lo <= hi <= |a| == |b| && (a[lo..] == b[lo..] || a[..hi] == b[..hi])
    ensures a[lo..hi] == b[lo..hi]
  {
    if a[lo..] == b[lo..] {
      assert a[lo..hi] == a[lo..][..hi - lo];
      assert b[lo..hi] == b[lo..][..hi - lo];
    } else {
      assert a[lo..hi] == a[..hi][lo..];
      assert b[lo..hi] == b[..hi][lo..];
    }
  }
}
