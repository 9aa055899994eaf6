/**
 * Board geometry behind the attack generators of magic_bitboards.cpp.
 *
 * Square s lies on rank s / 8 (rank 0 holds a8 .. h8) and file s % 8
 * (file 0 is the a-file). The attack sets here are the ground truth, as sets
 * of squares; the generators in LeaperMasks and SliderAttacks compute
 * bitboards whose squares are exactly these sets.
 */
module Geometry {

  function Rank(s: int): int { s / 8 }

  function File(s: int): int { s % 8 }

  predicate OnBoard(rank: int, file: int)
  {
    0 <= rank < 8 && 0 <= file < 8
  }

  /** `rank * 8 + file`, as the generators write it. */
  function SquareAt(rank: int, file: int): int
  {
    rank * 8 + file
  }

  lemma SquareAtCoordinates(rank: int, file: int)
    requires OnBoard(rank, file)
    ensures 0 <= SquareAt(rank, file) < 64
    ensures Rank(SquareAt(rank, file)) == rank && File(SquareAt(rank, file)) == file
  {
  }

  lemma CoordinatesOfSquare(s: int)
    requires 0 <= s < 64
    ensures OnBoard(Rank(s), File(s)) && SquareAt(Rank(s), File(s)) == s
  {
  }

  // ---------------------------------------------------------------------
  // Leapers
  // ---------------------------------------------------------------------

  /** The square dr ranks and df files away from s, when that is on the board. */
  function Step(s: int, dr: int, df: int): set<int>
  {
    if OnBoard(Rank(s) + dr, File(s) + df) then {SquareAt(Rank(s) + dr, File(s) + df)} else {}
  }

  /** A square t is in Step(s, dr, df) exactly when it lies dr ranks and df files from s. */
  lemma StepMembers(s: int, dr: int, df: int, t: int)
    requires 0 <= s < 64
    ensures t in Step(s, dr, df) <==> 0 <= t < 64 && Rank(t) == Rank(s) + dr && File(t) == File(s) + df
  {
    if OnBoard(Rank(s) + dr, File(s) + df) {
      SquareAtCoordinates(Rank(s) + dr, File(s) + df);
      if 0 <= t < 64 && Rank(t) == Rank(s) + dr && File(t) == File(s) + df {
        CoordinatesOfSquare(t);
      }
    } else if 0 <= t < 64 {
      CoordinatesOfSquare(t);
    }
  }

  const WHITE := 0
  const BLACK := 1
  const BOTH := 2

  /**
   * Squares a pawn of `side` on s attacks: one rank forward (towards rank 0
   * for white) and one file to either side. Any other side value attacks nothing.
   */
  function PawnAttackSet(side: int, s: int): set<int>
  {
    if side == WHITE then Step(s, -1, 1) + Step(s, -1, -1)
    else if side == BLACK then Step(s, 1, 1) + Step(s, 1, -1)
    else {}
  }

  function KnightAttackSet(s: int): set<int>
  {
    Step(s, -2, 1) + Step(s, -2, -1) + Step(s, -1, 2) + Step(s, -1, -2) +
    Step(s, 2, -1) + Step(s, 2, 1) + Step(s, 1, -2) + Step(s, 1, 2)
  }

  function KingAttackSet(s: int): set<int>
  {
    Step(s, -1, 0) + Step(s, -1, 1) + Step(s, -1, -1) + Step(s, 0, -1) +
    Step(s, 1, 0) + Step(s, 1, -1) + Step(s, 1, 1) + Step(s, 0, 1)
  }

  function Abs(x: int): int { if x < 0 then -x else x }

  /** A pawn attacks at most two squares. */
  lemma PawnAttackCount(side: int, s: int)
    ensures |PawnAttackSet(side, s)| <= 2
  {
  }

  /** A white pawn on s attacks t exactly when a black pawn on t attacks s (and conversely). */
  lemma PawnAttackMirror(s: int, t: int)
    requires 0 <= s < 64 && 0 <= t < 64
    ensures t in PawnAttackSet(WHITE, s) <==> s in PawnAttackSet(BLACK, t)
    ensures t in PawnAttackSet(BLACK, s) <==> s in PawnAttackSet(WHITE, t)
  {
    StepMembers(s, -1, 1, t);
    StepMembers(s, -1, -1, t);
    StepMembers(s, 1, 1, t);
    StepMembers(s, 1, -1, t);
    StepMembers(t, 1, 1, s);
    StepMembers(t, 1, -1, s);
    StepMembers(t, -1, 1, s);
    StepMembers(t, -1, -1, s);
  }

  /** The knight's targets are exactly the on-board squares a (1, 2) or (2, 1) jump away. */
  lemma KnightAttackMembers(s: int, t: int)
    requires 0 <= s < 64
    ensures t in KnightAttackSet(s) <==>
      0 <= t < 64 &&
      ((Abs(Rank(t) - Rank(s)) == 1 && Abs(File(t) - File(s)) == 2) ||
       (Abs(Rank(t) - Rank(s)) == 2 && Abs(File(t) - File(s)) == 1))
  {
    StepMembers(s, -2, 1, t);
    StepMembers(s, -2, -1, t);
    StepMembers(s, -1, 2, t);
    StepMembers(s, -1, -2, t);
    StepMembers(s, 1, 2, t);
    StepMembers(s, 1, -2, t);
    StepMembers(s, 2, 1, t);
    StepMembers(s, 2, -1, t);
  }

  /** The king's targets are exactly the on-board neighbours of s; s itself is never one. */
  lemma KingAttackMembers(s: int, t: int)
    requires 0 <= s < 64
    ensures t in KingAttackSet(s) <==>
      0 <= t < 64 && t != s && Abs(Rank(t) - Rank(s)) <= 1 && Abs(File(t) - File(s)) <= 1
  {
    StepMembers(s, -1, -1, t);
    StepMembers(s, -1, 0, t);
    StepMembers(s, -1, 1, t);
    StepMembers(s, 0, -1, t);
    StepMembers(s, 0, 1, t);
    StepMembers(s, 1, -1, t);
    StepMembers(s, 1, 0, t);
    StepMembers(s, 1, 1, t);
    if 0 <= t < 64 {
      CoordinatesOfSquare(t);
      CoordinatesOfSquare(s);
    }
  }

  // ---------------------------------------------------------------------
  // Sliders
  // ---------------------------------------------------------------------

  predicate IsDirection(dr: int, df: int)
  {
    -1 <= dr <= 1 && -1 <= df <= 1 && !(dr == 0 && df == 0)
  }

  /** Steps left along one coordinate before it leaves the board. */
  function Reach(x: int, d: int): int
  {
    if d == 1 then 8 - x else if d == -1 then x + 1 else 0
  }

  /**
   * The squares a slider reaches walking from (rank, file) in direction
   * (dr, df): every square up to and including the first occupied one, and
   * nothing beyond it or beyond the edge.
   */
  function Ray(rank: int, file: int, dr: int, df: int, occupied: set<int>): set<int>
    requires IsDirection(dr, df)
    decreases Reach(rank, dr) + Reach(file, df)
  {
    if !OnBoard(rank, file) then {}
    else if SquareAt(rank, file) in occupied then {SquareAt(rank, file)}
    else {SquareAt(rank, file)} + Ray(rank + dr, file + df, dr, df, occupied)
  }

  /** The coordinate may still advance in direction d without reaching the edge. */
  predicate Inner(x: int, d: int)
  {
    if d == 1 then x < 7 else if d == -1 then x > 0 else true
  }

  /**
   * The relevant-occupancy part of a ray: its squares on an empty board
   * except the last one before the edge.
   */
  function MaskRay(rank: int, file: int, dr: int, df: int): set<int>
    requires IsDirection(dr, df)
    decreases Reach(rank, dr) + Reach(file, df)
  {
    if OnBoard(rank, file) && Inner(rank, dr) && Inner(file, df) then
      {SquareAt(rank, file)} + MaskRay(rank + dr, file + df, dr, df)
    else {}
  }

  /** Once a coordinate has reached the edge, nothing of the mask ray is left to add. */
  lemma MaskRayOff(walked: set<int>, rank: int, file: int, dr: int, df: int)
    requires IsDirection(dr, df) && !(Inner(rank, dr) && Inner(file, df))
    ensures walked + MaskRay(rank, file, dr, df) == walked
  {
  }

  /** Off the board nothing of a ray is left to add. */
  lemma RayOff(walked: set<int>, rank: int, file: int, dr: int, df: int, occupied: set<int>)
    requires IsDirection(dr, df) && !OnBoard(rank, file)
    ensures walked + Ray(rank, file, dr, df, occupied) == walked
  {
  }

  function BishopAttackSet(s: int, occupied: set<int>): set<int>
  {
    var r, f := Rank(s), File(s);
    Ray(r + 1, f + 1, 1, 1, occupied) + Ray(r - 1, f + 1, -1, 1, occupied) +
    Ray(r + 1, f - 1, 1, -1, occupied) + Ray(r - 1, f - 1, -1, -1, occupied)
  }

  function RookAttackSet(s: int, occupied: set<int>): set<int>
  {
    var r, f := Rank(s), File(s);
    Ray(r + 1, f, 1, 0, occupied) + Ray(r - 1, f, -1, 0, occupied) +
    Ray(r, f + 1, 0, 1, occupied) + Ray(r, f - 1, 0, -1, occupied)
  }

  function BishopMaskSet(s: int): set<int>
  {
    var r, f := Rank(s), File(s);
    MaskRay(r + 1, f + 1, 1, 1) + MaskRay(r - 1, f + 1, -1, 1) +
    MaskRay(r + 1, f - 1, 1, -1) + MaskRay(r - 1, f - 1, -1, -1)
  }

  function RookMaskSet(s: int): set<int>
  {
    var r, f := Rank(s), File(s);
    MaskRay(r + 1, f, 1, 0) + MaskRay(r - 1, f, -1, 0) +
    MaskRay(r, f + 1, 0, 1) + MaskRay(r, f - 1, 0, -1)
  }

  function SliderAttackSet(isBishop: bool, s: int, occupied: set<int>): set<int>
  {
    if isBishop then BishopAttackSet(s, occupied) else RookAttackSet(s, occupied)
  }

  function SliderMaskSet(isBishop: bool, s: int): set<int>
  {
    if isBishop then BishopMaskSet(s) else RookMaskSet(s)
  }

  /**
   * Only the mask squares of a ray decide it: a square off the mask is
   * either beyond the ray or its last square, whose occupancy does not matter.
   */
  lemma {:induction false} RayRelevant(rank: int, file: int, dr: int, df: int, occupied: set<int>, mask: set<int>)
    requires IsDirection(dr, df) && MaskRay(rank, file, dr, df) <= mask
    ensures Ray(rank, file, dr, df, occupied) == Ray(rank, file, dr, df, occupied * mask)
    decreases Reach(rank, dr) + Reach(file, df)
  {
    if OnBoard(rank, file) {
      if Inner(rank, dr) && Inner(file, df) {
        RayRelevant(rank + dr, file + df, dr, df, occupied, mask);
      } else {
        assert Ray(rank + dr, file + df, dr, df, occupied) == {};
        assert Ray(rank + dr, file + df, dr, df, occupied * mask) == {};
      }
    }
  }

  /** Mask squares are board squares. */
  lemma {:induction false} MaskRayOnBoard(rank: int, file: int, dr: int, df: int)
    requires IsDirection(dr, df)
    ensures forall t :: t in MaskRay(rank, file, dr, df) ==> 0 <= t < 64
    decreases Reach(rank, dr) + Reach(file, df)
  {
    if OnBoard(rank, file) && Inner(rank, dr) && Inner(file, df) {
      SquareAtCoordinates(rank, file);
      MaskRayOnBoard(rank + dr, file + df, dr, df);
      assert MaskRay(rank, file, dr, df) == {SquareAt(rank, file)} + MaskRay(rank + dr, file + df, dr, df);
    }
  }

  lemma SliderMaskOnBoard(isBishop: bool, s: int)
    ensures forall t :: t in SliderMaskSet(isBishop, s) ==> 0 <= t < 64
  {
    var r, f := Rank(s), File(s);
    if isBishop {
      MaskRayOnBoard(r + 1, f + 1, 1, 1);
      MaskRayOnBoard(r - 1, f + 1, -1, 1);
      MaskRayOnBoard(r + 1, f - 1, 1, -1);
      MaskRayOnBoard(r - 1, f - 1, -1, -1);
    } else {
      MaskRayOnBoard(r + 1, f, 1, 0);
      MaskRayOnBoard(r - 1, f, -1, 0);
      MaskRayOnBoard(r, f + 1, 0, 1);
      MaskRayOnBoard(r, f - 1, 0, -1);
    }
  }

  /** Coordinate x lies at or beyond x0 in direction d, and equals it when d is 0. */
  predicate Ahead(x: int, x0: int, d: int)
  {
    if d == 1 then x0 <= x else if d == -1 then x <= x0 else x == x0
  }

  /** The number of steps in direction d from x0 to x. */
  function Dist(x: int, x0: int, d: int): int
  {
    if d == 1 then x - x0 else if d == -1 then x0 - x else 0
  }

  /** Square t lies on the walk from (rank, file) in direction (dr, df), at its start or after it. */
  predicate Along(t: int, rank: int, file: int, dr: int, df: int)
  {
    Ahead(Rank(t), rank, dr) && Ahead(File(t), file, df) &&
    (dr != 0 && df != 0 ==> Dist(Rank(t), rank, dr) == Dist(File(t), file, df))
  }

  /** A walk in direction d that starts at x is not behind the board's near edge. */
  predicate Entered(x: int, d: int)
  {
    if d == 1 then 0 <= x else if d == -1 then x < 8 else 0 <= x < 8
  }

  /** A mask square of a ray is a board square along the walk, with neither walked coordinate at the edge. */
  lemma {:induction false} MaskRayMembers(rank: int, file: int, dr: int, df: int, t: int)
    requires IsDirection(dr, df) && t in MaskRay(rank, file, dr, df)
    ensures 0 <= t < 64 && Inner(Rank(t), dr) && Inner(File(t), df) && Along(t, rank, file, dr, df)
    decreases Reach(rank, dr) + Reach(file, df)
  {
    if t == SquareAt(rank, file) {
      SquareAtCoordinates(rank, file);
    } else {
      MaskRayMembers(rank + dr, file + df, dr, df, t);
    }
  }

  /** Conversely, every board square along the walk, short of the edge, is a mask square of the ray. */
  lemma {:induction false} MaskRayHas(rank: int, file: int, dr: int, df: int, t: int)
    requires IsDirection(dr, df) && Entered(rank, dr) && Entered(file, df)
    requires 0 <= t < 64 && Inner(Rank(t), dr) && Inner(File(t), df) && Along(t, rank, file, dr, df)
    ensures t in MaskRay(rank, file, dr, df)
    decreases Reach(rank, dr) + Reach(file, df)
  {
    CoordinatesOfSquare(t);
    if t != SquareAt(rank, file) {
      MaskRayHas(rank + dr, file + df, dr, df, t);
    }
  }

  /** The mask part of a ray lies within the ray on an empty board. */
  lemma {:induction false} MaskRayInRay(rank: int, file: int, dr: int, df: int)
    requires IsDirection(dr, df)
    ensures MaskRay(rank, file, dr, df) <= Ray(rank, file, dr, df, {})
    decreases Reach(rank, dr) + Reach(file, df)
  {
    if OnBoard(rank, file) && Inner(rank, dr) && Inner(file, df) {
      MaskRayInRay(rank + dr, file + df, dr, df);
    }
  }

  /** Every relevant square is one the slider attacks on an empty board. */
  lemma SliderMaskInAttacks(isBishop: bool, s: int)
    ensures SliderMaskSet(isBishop, s) <= SliderAttackSet(isBishop, s, {})
  {
    var r, f := Rank(s), File(s);
    if isBishop {
      MaskRayInRay(r + 1, f + 1, 1, 1);
      MaskRayInRay(r - 1, f + 1, -1, 1);
      MaskRayInRay(r + 1, f - 1, 1, -1);
      MaskRayInRay(r - 1, f - 1, -1, -1);
    } else {
      MaskRayInRay(r + 1, f, 1, 0);
      MaskRayInRay(r - 1, f, -1, 0);
      MaskRayInRay(r, f + 1, 0, 1);
      MaskRayInRay(r, f - 1, 0, -1);
    }
  }

  /** t is on a diagonal of s, is not s itself, and is on neither an edge rank nor an edge file. */
  predicate BishopRelevant(s: int, t: int)
  {
    0 <= t < 64 && t != s && 1 <= Rank(t) <= 6 && 1 <= File(t) <= 6 &&
    (Rank(t) - Rank(s) == File(t) - File(s) || Rank(t) - Rank(s) == File(s) - File(t))
  }

  /**
   * t is on the file of s with its rank off the edge, or on the rank of s
   * with its file off the edge, and is not s itself: the far square of each
   * ray is left out.
   */
  predicate RookRelevant(s: int, t: int)
  {
    0 <= t < 64 && t != s &&
    ((File(t) == File(s) && 1 <= Rank(t) <= 6) || (Rank(t) == Rank(s) && 1 <= File(t) <= 6))
  }

  /**
   * The bishop's relevant mask is exactly its diagonals without its own
   * square and without the edge ranks and files.
   */
  lemma BishopMaskMembers(s: int, t: int)
    requires 0 <= s < 64
    ensures t in BishopMaskSet(s) <==> BishopRelevant(s, t)
  {
    var r, f := Rank(s), File(s);
    if t in MaskRay(r + 1, f + 1, 1, 1) {
      MaskRayMembers(r + 1, f + 1, 1, 1, t);
    } else if t in MaskRay(r - 1, f + 1, -1, 1) {
      MaskRayMembers(r - 1, f + 1, -1, 1, t);
    } else if t in MaskRay(r + 1, f - 1, 1, -1) {
      MaskRayMembers(r + 1, f - 1, 1, -1, t);
    } else if t in MaskRay(r - 1, f - 1, -1, -1) {
      MaskRayMembers(r - 1, f - 1, -1, -1, t);
    } else if 0 <= t < 64 && t != s && 1 <= Rank(t) <= 6 && 1 <= File(t) <= 6 &&
              (Rank(t) - r == File(t) - f || Rank(t) - r == f - File(t)) {
      CoordinatesOfSquare(s);
      CoordinatesOfSquare(t);
      if Rank(t) > r && File(t) > f {
        MaskRayHas(r + 1, f + 1, 1, 1, t);
      } else if Rank(t) < r && File(t) > f {
        MaskRayHas(r - 1, f + 1, -1, 1, t);
      } else if Rank(t) > r && File(t) < f {
        MaskRayHas(r + 1, f - 1, 1, -1, t);
      } else {
        MaskRayHas(r - 1, f - 1, -1, -1, t);
      }
    }
  }

  /**
   * The rook's relevant mask is exactly its rank and file without its own
   * square and without the far square of each ray.
   */
  lemma RookMaskMembers(s: int, t: int)
    requires 0 <= s < 64
    ensures t in RookMaskSet(s) <==> RookRelevant(s, t)
  {
    var r, f := Rank(s), File(s);
    if t in MaskRay(r + 1, f, 1, 0) {
      MaskRayMembers(r + 1, f, 1, 0, t);
    } else if t in MaskRay(r - 1, f, -1, 0) {
      MaskRayMembers(r - 1, f, -1, 0, t);
    } else if t in MaskRay(r, f + 1, 0, 1) {
      MaskRayMembers(r, f + 1, 0, 1, t);
    } else if t in MaskRay(r, f - 1, 0, -1) {
      MaskRayMembers(r, f - 1, 0, -1, t);
    } else if 0 <= t < 64 && t != s &&
              ((File(t) == f && 1 <= Rank(t) <= 6) || (Rank(t) == r && 1 <= File(t) <= 6)) {
      CoordinatesOfSquare(s);
      CoordinatesOfSquare(t);
      if File(t) == f && Rank(t) > r {
        MaskRayHas(r + 1, f, 1, 0, t);
      } else if File(t) == f && Rank(t) < r {
        MaskRayHas(r - 1, f, -1, 0, t);
      } else if File(t) > f {
        MaskRayHas(r, f + 1, 0, 1, t);
      } else {
        MaskRayHas(r, f - 1, 0, -1, t);
      }
    }
  }

  /** A slider's attacks depend on the occupancy of its relevant mask only. */
  lemma SliderRelevant(isBishop: bool, s: int, occupied: set<int>)
    ensures SliderAttackSet(isBishop, s, occupied) == SliderAttackSet(isBishop, s, occupied * SliderMaskSet(isBishop, s))
  {
    var r, f, m := Rank(s), File(s), SliderMaskSet(isBishop, s);
    if isBishop {
      RayRelevant(r + 1, f + 1, 1, 1, occupied, m);
      RayRelevant(r - 1, f + 1, -1, 1, occupied, m);
      RayRelevant(r + 1, f - 1, 1, -1, occupied, m);
      RayRelevant(r - 1, f - 1, -1, -1, occupied, m);
    } else {
      RayRelevant(r + 1, f, 1, 0, occupied, m);
      RayRelevant(r - 1, f, -1, 0, occupied, m);
      RayRelevant(r, f + 1, 0, 1, occupied, m);
      RayRelevant(r, f - 1, 0, -1, occupied, m);
    }
  }

  /** From any square some ray has a first square on the board, so slider attacks are never empty. */
  lemma SliderNonEmpty(isBishop: bool, s: int, occupied: set<int>)
    requires 0 <= s < 64
    ensures SliderAttackSet(isBishop, s, occupied) != {}
  {
    var r, f := Rank(s), File(s);
    if isBishop {
      var dr := if r < 7 then 1 else -1;
      var df := if f < 7 then 1 else -1;
      assert SquareAt(r + dr, f + df) in Ray(r + dr, f + df, dr, df, occupied);
    } else {
      var dr := if r < 7 then 1 else -1;
      assert SquareAt(r + dr, f) in Ray(r + dr, f, dr, 0, occupied);
    }
  }

  // ---------------------------------------------------------------------
  // Symmetry of attacks: s attacks t exactly when t, with the same piece, attacks s
  // ---------------------------------------------------------------------

  /** The coordinate k steps from x in direction d. */
  function Walk(x: int, d: int, k: int): int
  {
    if d == 1 then x + k else if d == -1 then x - k else x
  }

  /**
   * A walk from (rank, file) in direction (dr, df) starts on the board,
   * is still on it after k steps, and passes only empty squares before.
   */
  ghost predicate Reached(rank: int, file: int, dr: int, df: int, occupied: set<int>, k: int)
  {
    0 <= k && OnBoard(rank, file) && OnBoard(Walk(rank, dr, k), Walk(file, df, k)) &&
    forall j :: 0 <= j < k ==> SquareAt(Walk(rank, dr, j), Walk(file, df, j)) !in occupied
  }

  /** Every square a reached walk ends on belongs to the ray. */
  lemma {:induction false} ReachedInRay(rank: int, file: int, dr: int, df: int, occupied: set<int>, k: int)
    requires IsDirection(dr, df) && Reached(rank, file, dr, df, occupied, k)
    ensures SquareAt(Walk(rank, dr, k), Walk(file, df, k)) in Ray(rank, file, dr, df, occupied)
    decreases k
  {
    if k > 0 {
      var nextRank, nextFile := rank + dr, file + df;
      assert SquareAt(Walk(rank, dr, 0), Walk(file, df, 0)) !in occupied;
      assert Walk(nextRank, dr, k - 1) == Walk(rank, dr, k) && Walk(nextFile, df, k - 1) == Walk(file, df, k);
      forall j | 0 <= j < k - 1
        ensures SquareAt(Walk(nextRank, dr, j), Walk(nextFile, df, j)) !in occupied
      {
        assert Walk(nextRank, dr, j) == Walk(rank, dr, j + 1) && Walk(nextFile, df, j) == Walk(file, df, j + 1);
      }
      ReachedInRay(nextRank, nextFile, dr, df, occupied, k - 1);
    }
  }

  /** Every square of a ray ends a reached walk. */
  lemma {:induction false} RayReached(rank: int, file: int, dr: int, df: int, occupied: set<int>, x: int) returns (k: int)
    requires IsDirection(dr, df) && x in Ray(rank, file, dr, df, occupied)
    ensures Reached(rank, file, dr, df, occupied, k) && x == SquareAt(Walk(rank, dr, k), Walk(file, df, k))
    decreases Reach(rank, dr) + Reach(file, df)
  {
    if x == SquareAt(rank, file) {
      k := 0;
    } else {
      var k' := RayReached(rank + dr, file + df, dr, df, occupied, x);
      k := k' + 1;
      assert Walk(rank + dr, dr, k') == Walk(rank, dr, k) && Walk(file + df, df, k') == Walk(file, df, k);
      forall j | 0 <= j < k
        ensures SquareAt(Walk(rank, dr, j), Walk(file, df, j)) !in occupied
      {
        if j > 0 {
          assert Walk(rank + dr, dr, j - 1) == Walk(rank, dr, j) && Walk(file + df, df, j - 1) == Walk(file, df, j);
        }
      }
    }
  }

  /** Walking back j steps from one step beyond the k-th square of a walk lands on its (k - 1 - j)-th square. */
  lemma WalkBack(x: int, d: int, k: int, j: int)
    requires -1 <= d <= 1
    ensures Walk(Walk(x, d, k) - d, -d, j) == Walk(x, d, k - 1 - j)
  {
  }

  /** Walking a ray back from any of its squares leads to the square it started next to. */
  lemma RayFlip(rank: int, file: int, dr: int, df: int, occupied: set<int>, x: int)
    requires IsDirection(dr, df) && OnBoard(rank - dr, file - df) && x in Ray(rank, file, dr, df, occupied)
    ensures 0 <= x < 64
    ensures SquareAt(rank - dr, file - df) in Ray(Rank(x) - dr, File(x) - df, -dr, -df, occupied)
  {
    var k := RayReached(rank, file, dr, df, occupied, x);
    var xr, xf := Walk(rank, dr, k), Walk(file, df, k);
    SquareAtCoordinates(xr, xf);
    var backRank, backFile, br, bf := xr - dr, xf - df, -dr, -df;
    forall j | 0 <= j < k
      ensures SquareAt(Walk(backRank, br, j), Walk(backFile, bf, j)) !in occupied
    {
      WalkBack(rank, dr, k, j);
      WalkBack(file, df, k, j);
    }
    WalkBack(rank, dr, k, k);
    WalkBack(file, df, k, k);
    assert Walk(backRank, br, k) == rank - dr && Walk(backFile, bf, k) == file - df;
    ReachedInRay(backRank, backFile, br, bf, occupied, k);
    assert SquareAt(rank - dr, file - df) in Ray(backRank, backFile, br, bf, occupied);
    assert Rank(x) - dr == backRank && File(x) - df == backFile;
  }

  /** The directions a slider moves in: diagonals for a bishop, ranks and files for a rook. */
  predicate SliderDirection(isBishop: bool, dr: int, df: int)
  {
    IsDirection(dr, df) && (isBishop == (dr != 0 && df != 0))
  }

  /** A member of a union of four sets is in one of them. */
  lemma OneOfFour(t: int, a: set<int>, b: set<int>, c: set<int>, d: set<int>) returns (i: int)
    requires t in a + b + c + d
    ensures (i == 0 && t in a) || (i == 1 && t in b) || (i == 2 && t in c) || (i == 3 && t in d)
  {
    if t in a { i := 0; } else if t in b { i := 1; } else if t in c { i := 2; } else { i := 3; }
  }

  /** A square a bishop attacks lies on one of its four diagonal rays. */
  lemma BishopRays(s: int, t: int, occupied: set<int>) returns (dr: int, df: int)
    requires t in BishopAttackSet(s, occupied)
    ensures SliderDirection(true, dr, df) && t in Ray(Rank(s) + dr, File(s) + df, dr, df, occupied)
  {
    var r, f := Rank(s), File(s);
    var i := OneOfFour(t, Ray(r + 1, f + 1, 1, 1, occupied), Ray(r - 1, f + 1, -1, 1, occupied),
                          Ray(r + 1, f - 1, 1, -1, occupied), Ray(r - 1, f - 1, -1, -1, occupied));
    if i == 0 { dr, df := 1, 1; }
    else if i == 1 { dr, df := -1, 1; }
    else if i == 2 { dr, df := 1, -1; }
    else { dr, df := -1, -1; }
  }

  /** A square a rook attacks lies on one of its four straight rays. */
  lemma RookRays(s: int, t: int, occupied: set<int>) returns (dr: int, df: int)
    requires t in RookAttackSet(s, occupied)
    ensures SliderDirection(false, dr, df) && t in Ray(Rank(s) + dr, File(s) + df, dr, df, occupied)
  {
    var r, f := Rank(s), File(s);
    var i := OneOfFour(t, Ray(r + 1, f, 1, 0, occupied), Ray(r - 1, f, -1, 0, occupied),
                          Ray(r, f + 1, 0, 1, occupied), Ray(r, f - 1, 0, -1, occupied));
    if i == 0 { dr, df := 1, 0; assert f + df == f; }
    else if i == 1 { dr, df := -1, 0; assert f + df == f; }
    else if i == 2 { dr, df := 0, 1; assert r + dr == r; }
    else { dr, df := 0, -1; assert r + dr == r; }
  }

  /** A slider's attacks are the union of its rays. */
  lemma SliderRays(isBishop: bool, s: int, t: int, occupied: set<int>) returns (dr: int, df: int)
    requires t in SliderAttackSet(isBishop, s, occupied)
    ensures SliderDirection(isBishop, dr, df) && t in Ray(Rank(s) + dr, File(s) + df, dr, df, occupied)
  {
    if isBishop {
      dr, df := BishopRays(s, t, occupied);
    } else {
      dr, df := RookRays(s, t, occupied);
    }
  }

  /** The ray leaving s against direction (dr, df) is one of the slider's rays. */
  lemma BackRayInSlider(isBishop: bool, s: int, dr: int, df: int, occupied: set<int>)
    requires SliderDirection(isBishop, dr, df)
    ensures Ray(Rank(s) - dr, File(s) - df, -dr, -df, occupied) <= SliderAttackSet(isBishop, s, occupied)
  {
    var r, f := Rank(s), File(s);
    var back := Ray(r - dr, f - df, -dr, -df, occupied);
    if isBishop {
      var rays := BishopAttackSet(s, occupied);
      if dr == -1 && df == -1 { assert back == Ray(r + 1, f + 1, 1, 1, occupied); }
      else if dr == 1 && df == -1 { assert back == Ray(r - 1, f + 1, -1, 1, occupied); }
      else if dr == -1 && df == 1 { assert back == Ray(r + 1, f - 1, 1, -1, occupied); }
      else { assert back == Ray(r - 1, f - 1, -1, -1, occupied); }
    } else {
      var rays := RookAttackSet(s, occupied);
      if dr == -1 { assert back == Ray(r + 1, f, 1, 0, occupied); }
      else if dr == 1 { assert back == Ray(r - 1, f, -1, 0, occupied); }
      else if df == -1 { assert back == Ray(r, f + 1, 0, 1, occupied); }
      else { assert back == Ray(r, f - 1, 0, -1, occupied); }
    }
  }

  /** One direction of slider symmetry. */
  lemma SliderSees(isBishop: bool, s: int, t: int, occupied: set<int>)
    requires 0 <= s < 64 && t in SliderAttackSet(isBishop, s, occupied)
    ensures 0 <= t < 64 && s in SliderAttackSet(isBishop, t, occupied)
  {
    CoordinatesOfSquare(s);
    var dr, df := SliderRays(isBishop, s, t, occupied);
    RayFlip(Rank(s) + dr, File(s) + df, dr, df, occupied, t);
    assert s in Ray(Rank(t) - dr, File(t) - df, -dr, -df, occupied);
    BackRayInSlider(isBishop, t, dr, df, occupied);
  }

  /** A slider on s attacks t exactly when the same slider on t attacks s. */
  lemma SliderSymmetric(isBishop: bool, s: int, t: int, occupied: set<int>)
    requires 0 <= s < 64 && 0 <= t < 64
    ensures t in SliderAttackSet(isBishop, s, occupied) <==> s in SliderAttackSet(isBishop, t, occupied)
  {
    if t in SliderAttackSet(isBishop, s, occupied) {
      SliderSees(isBishop, s, t, occupied);
    }
    if s in SliderAttackSet(isBishop, t, occupied) {
      SliderSees(isBishop, t, s, occupied);
    }
  }

  /** Knights attack symmetrically. */
  lemma KnightSymmetric(s: int, t: int)
    requires 0 <= s < 64 && 0 <= t < 64
    ensures t in KnightAttackSet(s) <==> s in KnightAttackSet(t)
  {
    KnightAttackMembers(s, t);
    KnightAttackMembers(t, s);
  }

  /** Kings attack symmetrically. */
  lemma KingSymmetric(s: int, t: int)
    requires 0 <= s < 64 && 0 <= t < 64
    ensures t in KingAttackSet(s) <==> s in KingAttackSet(t)
  {
    KingAttackMembers(s, t);
    KingAttackMembers(t, s);
  }
}
