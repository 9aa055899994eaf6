/**
 * Attack sets of the sliding pieces (magic_bitboards.cpp): the relevant
 * occupancy masks maskBishopAttacks / maskRookAttacks, which walk each ray
 * but stop one square short of the board edge, and the ray-cast generators
 * generateBishopAttacks / generateRookAttacks, which walk each ray up to and
 * including the first occupied square.
 *
 * Each engine function is four `for` loops, one per direction; here each
 * loop is a method of its own, named after its direction with rank 0 (the
 * eighth rank) as north and file 0 (the a-file) as west, and keeping the
 * engine's loop bounds. The loop invariant says that the squares set so far
 * together with the rest of the ray from the current (rank, file) make up
 * the whole ray. The loop bodies are the methods *Step below: the body is
 * the same statement in every loop, but the rest of the ray is stated with
 * only the coordinates that move, one method for diagonals, one for files
 * and one for ranks.
 */
module SliderAttacks {
  import opened Bitboards
  import opened Geometry

  /** Four rays added one after the other to the empty board make up their union. */
  lemma FourRays(empty: set<int>, all: set<int>, a: set<int>, b: set<int>, c: set<int>, d: set<int>)
    requires empty == {}
    requires all == empty + a + b + c + d
    ensures all == a + b + c + d
  {
  }

  // ---------------------------------------------------------------------
  // Loop bodies
  // ---------------------------------------------------------------------

  /** `setBit(attacksBitboard, rank * 8 + file)` in a mask loop walking a diagonal. */
  method MaskDiagonalStep(attacksBitboard: Bitboard, rank: int, file: int, ghost dr: int, ghost df: int, ghost target: set<int>)
    returns (r: Bitboard)
    requires (dr == 1 || dr == -1) && (df == 1 || df == -1)
    requires OnBoard(rank, file) && Inner(rank, dr) && Inner(file, df)
    requires Squares(attacksBitboard) + MaskRay(rank, file, dr, df) == target
    ensures Squares(r) + MaskRay(rank + dr, file + df, dr, df) == target
  {
    r := SetBit(attacksBitboard, rank * 8 + file);
  }

  /** `setBit(attacksBitboard, rank * 8 + targetFile)` in a mask loop walking a file. */
  method MaskFileStep(attacksBitboard: Bitboard, rank: int, file: int, ghost dr: int, ghost target: set<int>)
    returns (r: Bitboard)
    requires dr == 1 || dr == -1
    requires OnBoard(rank, file) && Inner(rank, dr)
    requires Squares(attacksBitboard) + MaskRay(rank, file, dr, 0) == target
    ensures Squares(r) + MaskRay(rank + dr, file, dr, 0) == target
  {
    r := SetBit(attacksBitboard, rank * 8 + file);
  }

  /** `setBit(attacksBitboard, targetRank * 8 + file)` in a mask loop walking a rank. */
  method MaskRankStep(attacksBitboard: Bitboard, rank: int, file: int, ghost df: int, ghost target: set<int>)
    returns (r: Bitboard)
    requires df == 1 || df == -1
    requires OnBoard(rank, file) && Inner(file, df)
    requires Squares(attacksBitboard) + MaskRay(rank, file, 0, df) == target
    ensures Squares(r) + MaskRay(rank, file + df, 0, df) == target
  {
    r := SetBit(attacksBitboard, rank * 8 + file);
  }

  /**
   * `setBit(attacksBitboard, rank * 8 + file); if (getBit(occupancy, rank * 8 + file)) break;`
   * in a generator loop walking a diagonal: an occupied square ends the ray.
   */
  method CastDiagonalStep(attacksBitboard: Bitboard, occupancy: Bitboard, rank: int, file: int,
                          ghost dr: int, ghost df: int, ghost target: set<int>)
    returns (r: Bitboard, blocked: bool)
    requires (dr == 1 || dr == -1) && (df == 1 || df == -1) && OnBoard(rank, file)
    requires Squares(attacksBitboard) + Ray(rank, file, dr, df, Squares(occupancy)) == target
    ensures blocked ==> Squares(r) == target
    ensures !blocked ==> Squares(r) + Ray(rank + dr, file + df, dr, df, Squares(occupancy)) == target
  {
    r := SetBit(attacksBitboard, rank * 8 + file);
    blocked := GetBit(occupancy, rank * 8 + file) != 0;
  }

  /** The body of a generator loop walking a file. */
  method CastFileStep(attacksBitboard: Bitboard, occupancy: Bitboard, rank: int, file: int,
                      ghost dr: int, ghost target: set<int>)
    returns (r: Bitboard, blocked: bool)
    requires (dr == 1 || dr == -1) && OnBoard(rank, file)
    requires Squares(attacksBitboard) + Ray(rank, file, dr, 0, Squares(occupancy)) == target
    ensures blocked ==> Squares(r) == target
    ensures !blocked ==> Squares(r) + Ray(rank + dr, file, dr, 0, Squares(occupancy)) == target
  {
    r := SetBit(attacksBitboard, rank * 8 + file);
    blocked := GetBit(occupancy, rank * 8 + file) != 0;
  }

  /** The body of a generator loop walking a rank. */
  method CastRankStep(attacksBitboard: Bitboard, occupancy: Bitboard, rank: int, file: int,
                      ghost df: int, ghost target: set<int>)
    returns (r: Bitboard, blocked: bool)
    requires (df == 1 || df == -1) && OnBoard(rank, file)
    requires Squares(attacksBitboard) + Ray(rank, file, 0, df, Squares(occupancy)) == target
    ensures blocked ==> Squares(r) == target
    ensures !blocked ==> Squares(r) + Ray(rank, file + df, 0, df, Squares(occupancy)) == target
  {
    r := SetBit(attacksBitboard, rank * 8 + file);
    blocked := GetBit(occupancy, rank * 8 + file) != 0;
  }

  // ---------------------------------------------------------------------
  // maskBishopAttacks, maskRookAttacks
  // ---------------------------------------------------------------------

  /** The `rank < 7 && file < 7` loop of maskBishopAttacks. */
  method MaskSouthEast(attacks: Bitboard, targetRank: int, targetFile: int) returns (attacksBitboard: Bitboard)
    requires OnBoard(targetRank, targetFile)
    ensures Squares(attacksBitboard) == Squares(attacks) + MaskRay(targetRank + 1, targetFile + 1, 1, 1)
  {
    attacksBitboard := attacks;
    ghost var target := Squares(attacks) + MaskRay(targetRank + 1, targetFile + 1, 1, 1);
    var rank, file := targetRank + 1, targetFile + 1;
    while rank < 7 && file < 7
      invariant 1 <= rank && 1 <= file
      invariant Squares(attacksBitboard) + MaskRay(rank, file, 1, 1) == target
      decreases 7 - file
    {
      attacksBitboard := MaskDiagonalStep(attacksBitboard, rank, file, 1, 1, target);
      rank, file := rank + 1, file + 1;
    }
    MaskRayOff(Squares(attacksBitboard), rank, file, 1, 1);
  }

  /** The `rank > 0 && file < 7` loop of maskBishopAttacks. */
  method MaskNorthEast(attacks: Bitboard, targetRank: int, targetFile: int) returns (attacksBitboard: Bitboard)
    requires OnBoard(targetRank, targetFile)
    ensures Squares(attacksBitboard) == Squares(attacks) + MaskRay(targetRank - 1, targetFile + 1, -1, 1)
  {
    attacksBitboard := attacks;
    ghost var target := Squares(attacks) + MaskRay(targetRank - 1, targetFile + 1, -1, 1);
    var rank, file := targetRank - 1, targetFile + 1;
    while rank > 0 && file < 7
      invariant rank <= 6 && 1 <= file
      invariant Squares(attacksBitboard) + MaskRay(rank, file, -1, 1) == target
      decreases 7 - file
    {
      attacksBitboard := MaskDiagonalStep(attacksBitboard, rank, file, -1, 1, target);
      rank, file := rank - 1, file + 1;
    }
    MaskRayOff(Squares(attacksBitboard), rank, file, -1, 1);
  }

  /** The `rank < 7 && file > 0` loop of maskBishopAttacks. */
  method MaskSouthWest(attacks: Bitboard, targetRank: int, targetFile: int) returns (attacksBitboard: Bitboard)
    requires OnBoard(targetRank, targetFile)
    ensures Squares(attacksBitboard) == Squares(attacks) + MaskRay(targetRank + 1, targetFile - 1, 1, -1)
  {
    attacksBitboard := attacks;
    ghost var target := Squares(attacks) + MaskRay(targetRank + 1, targetFile - 1, 1, -1);
    var rank, file := targetRank + 1, targetFile - 1;
    while rank < 7 && file > 0
      invariant 1 <= rank && file <= 6
      invariant Squares(attacksBitboard) + MaskRay(rank, file, 1, -1) == target
      decreases file
    {
      attacksBitboard := MaskDiagonalStep(attacksBitboard, rank, file, 1, -1, target);
      rank, file := rank + 1, file - 1;
    }
    MaskRayOff(Squares(attacksBitboard), rank, file, 1, -1);
  }

  /** The `rank > 0 && file > 0` loop of maskBishopAttacks. */
  method MaskNorthWest(attacks: Bitboard, targetRank: int, targetFile: int) returns (attacksBitboard: Bitboard)
    requires OnBoard(targetRank, targetFile)
    ensures Squares(attacksBitboard) == Squares(attacks) + MaskRay(targetRank - 1, targetFile - 1, -1, -1)
  {
    attacksBitboard := attacks;
    ghost var target := Squares(attacks) + MaskRay(targetRank - 1, targetFile - 1, -1, -1);
    var rank, file := targetRank - 1, targetFile - 1;
    while rank > 0 && file > 0
      invariant rank <= 6 && file <= 6
      invariant Squares(attacksBitboard) + MaskRay(rank, file, -1, -1) == target
      decreases file
    {
      attacksBitboard := MaskDiagonalStep(attacksBitboard, rank, file, -1, -1, target);
      rank, file := rank - 1, file - 1;
    }
    MaskRayOff(Squares(attacksBitboard), rank, file, -1, -1);
  }

  /** The `rank < 7` loop of maskRookAttacks. */
  method MaskSouth(attacks: Bitboard, targetRank: int, targetFile: int) returns (attacksBitboard: Bitboard)
    requires OnBoard(targetRank, targetFile)
    ensures Squares(attacksBitboard) == Squares(attacks) + MaskRay(targetRank + 1, targetFile, 1, 0)
  {
    attacksBitboard := attacks;
    ghost var target := Squares(attacks) + MaskRay(targetRank + 1, targetFile, 1, 0);
    var rank := targetRank + 1;
    while rank < 7
      invariant 1 <= rank
      invariant Squares(attacksBitboard) + MaskRay(rank, targetFile, 1, 0) == target
      decreases 7 - rank
    {
      attacksBitboard := MaskFileStep(attacksBitboard, rank, targetFile, 1, target);
      rank := rank + 1;
    }
    MaskRayOff(Squares(attacksBitboard), rank, targetFile, 1, 0);
  }

  /** The `rank > 0` loop of maskRookAttacks. */
  method MaskNorth(attacks: Bitboard, targetRank: int, targetFile: int) returns (attacksBitboard: Bitboard)
    requires OnBoard(targetRank, targetFile)
    ensures Squares(attacksBitboard) == Squares(attacks) + MaskRay(targetRank - 1, targetFile, -1, 0)
  {
    attacksBitboard := attacks;
    ghost var target := Squares(attacks) + MaskRay(targetRank - 1, targetFile, -1, 0);
    var rank := targetRank - 1;
    while rank > 0
      invariant rank <= 6
      invariant Squares(attacksBitboard) + MaskRay(rank, targetFile, -1, 0) == target
      decreases rank
    {
      attacksBitboard := MaskFileStep(attacksBitboard, rank, targetFile, -1, target);
      rank := rank - 1;
    }
    MaskRayOff(Squares(attacksBitboard), rank, targetFile, -1, 0);
  }

  /** The `file < 7` loop of maskRookAttacks. */
  method MaskEast(attacks: Bitboard, targetRank: int, targetFile: int) returns (attacksBitboard: Bitboard)
    requires OnBoard(targetRank, targetFile)
    ensures Squares(attacksBitboard) == Squares(attacks) + MaskRay(targetRank, targetFile + 1, 0, 1)
  {
    attacksBitboard := attacks;
    ghost var target := Squares(attacks) + MaskRay(targetRank, targetFile + 1, 0, 1);
    var file := targetFile + 1;
    while file < 7
      invariant 1 <= file
      invariant Squares(attacksBitboard) + MaskRay(targetRank, file, 0, 1) == target
      decreases 7 - file
    {
      attacksBitboard := MaskRankStep(attacksBitboard, targetRank, file, 1, target);
      file := file + 1;
    }
    MaskRayOff(Squares(attacksBitboard), targetRank, file, 0, 1);
  }

  /** The `file > 0` loop of maskRookAttacks. */
  method MaskWest(attacks: Bitboard, targetRank: int, targetFile: int) returns (attacksBitboard: Bitboard)
    requires OnBoard(targetRank, targetFile)
    ensures Squares(attacksBitboard) == Squares(attacks) + MaskRay(targetRank, targetFile - 1, 0, -1)
  {
    attacksBitboard := attacks;
    ghost var target := Squares(attacks) + MaskRay(targetRank, targetFile - 1, 0, -1);
    var file := targetFile - 1;
    while file > 0
      invariant file <= 6
      invariant Squares(attacksBitboard) + MaskRay(targetRank, file, 0, -1) == target
      decreases file
    {
      attacksBitboard := MaskRankStep(attacksBitboard, targetRank, file, -1, target);
      file := file - 1;
    }
    MaskRayOff(Squares(attacksBitboard), targetRank, file, 0, -1);
  }

  /** maskBishopAttacks: the diagonal squares whose occupancy can block a bishop on `squareIndex`. */
  method MaskBishopAttacks(squareIndex: int) returns (attacksBitboard: Bitboard)
    requires 0 <= squareIndex < 64
    ensures Squares(attacksBitboard) == BishopMaskSet(squareIndex)
    ensures forall t :: t in Squares(attacksBitboard) <==> BishopRelevant(squareIndex, t)
  {
    attacksBitboard := 0;
    var targetRank := squareIndex / 8;
    var targetFile := squareIndex % 8;
    SquaresZero();
    ghost var empty := attacksBitboard;
    attacksBitboard := MaskSouthEast(attacksBitboard, targetRank, targetFile);
    attacksBitboard := MaskNorthEast(attacksBitboard, targetRank, targetFile);
    attacksBitboard := MaskSouthWest(attacksBitboard, targetRank, targetFile);
    attacksBitboard := MaskNorthWest(attacksBitboard, targetRank, targetFile);
    FourRays(Squares(empty), Squares(attacksBitboard),
             MaskRay(targetRank + 1, targetFile + 1, 1, 1),
             MaskRay(targetRank - 1, targetFile + 1, -1, 1),
             MaskRay(targetRank + 1, targetFile - 1, 1, -1),
             MaskRay(targetRank - 1, targetFile - 1, -1, -1));
    forall t
      ensures t in Squares(attacksBitboard) <==> BishopRelevant(squareIndex, t)
    {
      BishopMaskMembers(squareIndex, t);
    }
  }

  /** maskRookAttacks: the rank and file squares whose occupancy can block a rook on `squareIndex`. */
  method MaskRookAttacks(squareIndex: int) returns (attacksBitboard: Bitboard)
    requires 0 <= squareIndex < 64
    ensures Squares(attacksBitboard) == RookMaskSet(squareIndex)
    ensures forall t :: t in Squares(attacksBitboard) <==> RookRelevant(squareIndex, t)
  {
    attacksBitboard := 0;
    var targetRank := squareIndex / 8;
    var targetFile := squareIndex % 8;
    SquaresZero();
    ghost var empty := attacksBitboard;
    attacksBitboard := MaskSouth(attacksBitboard, targetRank, targetFile);
    attacksBitboard := MaskNorth(attacksBitboard, targetRank, targetFile);
    attacksBitboard := MaskEast(attacksBitboard, targetRank, targetFile);
    attacksBitboard := MaskWest(attacksBitboard, targetRank, targetFile);
    FourRays(Squares(empty), Squares(attacksBitboard),
             MaskRay(targetRank + 1, targetFile, 1, 0),
             MaskRay(targetRank - 1, targetFile, -1, 0),
             MaskRay(targetRank, targetFile + 1, 0, 1),
             MaskRay(targetRank, targetFile - 1, 0, -1));
    forall t
      ensures t in Squares(attacksBitboard) <==> RookRelevant(squareIndex, t)
    {
      RookMaskMembers(squareIndex, t);
    }
  }

  // ---------------------------------------------------------------------
  // generateBishopAttacks, generateRookAttacks
  // ---------------------------------------------------------------------

  /** The `rank < 8 && file < 8` loop of generateBishopAttacks. */
  method RaySouthEast(attacks: Bitboard, occupancy: Bitboard, targetRank: int, targetFile: int)
    returns (attacksBitboard: Bitboard)
    requires OnBoard(targetRank, targetFile)
    ensures Squares(attacksBitboard) == Squares(attacks) + Ray(targetRank + 1, targetFile + 1, 1, 1, Squares(occupancy))
  {
    attacksBitboard := attacks;
    ghost var target := Squares(attacks) + Ray(targetRank + 1, targetFile + 1, 1, 1, Squares(occupancy));
    var rank, file := targetRank + 1, targetFile + 1;
    while rank < 8 && file < 8
      invariant 1 <= rank && 1 <= file
      invariant Squares(attacksBitboard) + Ray(rank, file, 1, 1, Squares(occupancy)) == target
      decreases 8 - file
    {
      var blocked;
      attacksBitboard, blocked := CastDiagonalStep(attacksBitboard, occupancy, rank, file, 1, 1, target);
      if blocked {
        break;
      }
      rank, file := rank + 1, file + 1;
    }
    if !(rank < 8 && file < 8) {
      RayOff(Squares(attacksBitboard), rank, file, 1, 1, Squares(occupancy));
    }
  }

  /** The `rank >= 0 && file < 8` loop of generateBishopAttacks. */
  method RayNorthEast(attacks: Bitboard, occupancy: Bitboard, targetRank: int, targetFile: int)
    returns (attacksBitboard: Bitboard)
    requires OnBoard(targetRank, targetFile)
    ensures Squares(attacksBitboard) == Squares(attacks) + Ray(targetRank - 1, targetFile + 1, -1, 1, Squares(occupancy))
  {
    attacksBitboard := attacks;
    ghost var target := Squares(attacks) + Ray(targetRank - 1, targetFile + 1, -1, 1, Squares(occupancy));
    var rank, file := targetRank - 1, targetFile + 1;
    while rank >= 0 && file < 8
      invariant rank <= 6 && 1 <= file
      invariant Squares(attacksBitboard) + Ray(rank, file, -1, 1, Squares(occupancy)) == target
      decreases 8 - file
    {
      var blocked;
      attacksBitboard, blocked := CastDiagonalStep(attacksBitboard, occupancy, rank, file, -1, 1, target);
      if blocked {
        break;
      }
      rank, file := rank - 1, file + 1;
    }
    if !(rank >= 0 && file < 8) {
      RayOff(Squares(attacksBitboard), rank, file, -1, 1, Squares(occupancy));
    }
  }

  /** The `rank < 8 && file >= 0` loop of generateBishopAttacks. */
  method RaySouthWest(attacks: Bitboard, occupancy: Bitboard, targetRank: int, targetFile: int)
    returns (attacksBitboard: Bitboard)
    requires OnBoard(targetRank, targetFile)
    ensures Squares(attacksBitboard) == Squares(attacks) + Ray(targetRank + 1, targetFile - 1, 1, -1, Squares(occupancy))
  {
    attacksBitboard := attacks;
    ghost var target := Squares(attacks) + Ray(targetRank + 1, targetFile - 1, 1, -1, Squares(occupancy));
    var rank, file := targetRank + 1, targetFile - 1;
    while rank < 8 && file >= 0
      invariant 1 <= rank && file <= 6
      invariant Squares(attacksBitboard) + Ray(rank, file, 1, -1, Squares(occupancy)) == target
      decreases file + 1
    {
      var blocked;
      attacksBitboard, blocked := CastDiagonalStep(attacksBitboard, occupancy, rank, file, 1, -1, target);
      if blocked {
        break;
      }
      rank, file := rank + 1, file - 1;
    }
    if !(rank < 8 && file >= 0) {
      RayOff(Squares(attacksBitboard), rank, file, 1, -1, Squares(occupancy));
    }
  }

  /** The `rank >= 0 && file >= 0` loop of generateBishopAttacks. */
  method RayNorthWest(attacks: Bitboard, occupancy: Bitboard, targetRank: int, targetFile: int)
    returns (attacksBitboard: Bitboard)
    requires OnBoard(targetRank, targetFile)
    ensures Squares(attacksBitboard) == Squares(attacks) + Ray(targetRank - 1, targetFile - 1, -1, -1, Squares(occupancy))
  {
    attacksBitboard := attacks;
    ghost var target := Squares(attacks) + Ray(targetRank - 1, targetFile - 1, -1, -1, Squares(occupancy));
    var rank, file := targetRank - 1, targetFile - 1;
    while rank >= 0 && file >= 0
      invariant rank <= 6 && file <= 6
      invariant Squares(attacksBitboard) + Ray(rank, file, -1, -1, Squares(occupancy)) == target
      decreases file + 1
    {
      var blocked;
      attacksBitboard, blocked := CastDiagonalStep(attacksBitboard, occupancy, rank, file, -1, -1, target);
      if blocked {
        break;
      }
      rank, file := rank - 1, file - 1;
    }
    if !(rank >= 0 && file >= 0) {
      RayOff(Squares(attacksBitboard), rank, file, -1, -1, Squares(occupancy));
    }
  }

  /** The `rank < 8` loop of generateRookAttacks. */
  method RaySouth(attacks: Bitboard, occupancy: Bitboard, targetRank: int, targetFile: int)
    returns (attacksBitboard: Bitboard)
    requires OnBoard(targetRank, targetFile)
    ensures Squares(attacksBitboard) == Squares(attacks) + Ray(targetRank + 1, targetFile, 1, 0, Squares(occupancy))
  {
    attacksBitboard := attacks;
    ghost var target := Squares(attacks) + Ray(targetRank + 1, targetFile, 1, 0, Squares(occupancy));
    var rank := targetRank + 1;
    while rank < 8
      invariant 1 <= rank
      invariant Squares(attacksBitboard) + Ray(rank, targetFile, 1, 0, Squares(occupancy)) == target
      decreases 8 - rank
    {
      var blocked;
      attacksBitboard, blocked := CastFileStep(attacksBitboard, occupancy, rank, targetFile, 1, target);
      if blocked {
        break;
      }
      rank := rank + 1;
    }
    if !(rank < 8) {
      RayOff(Squares(attacksBitboard), rank, targetFile, 1, 0, Squares(occupancy));
    }
  }

  /** The `rank >= 0` loop of generateRookAttacks. */
  method RayNorth(attacks: Bitboard, occupancy: Bitboard, targetRank: int, targetFile: int)
    returns (attacksBitboard: Bitboard)
    requires OnBoard(targetRank, targetFile)
    ensures Squares(attacksBitboard) == Squares(attacks) + Ray(targetRank - 1, targetFile, -1, 0, Squares(occupancy))
  {
    attacksBitboard := attacks;
    ghost var target := Squares(attacks) + Ray(targetRank - 1, targetFile, -1, 0, Squares(occupancy));
    var rank := targetRank - 1;
    while rank >= 0
      invariant rank <= 6
      invariant Squares(attacksBitboard) + Ray(rank, targetFile, -1, 0, Squares(occupancy)) == target
      decreases rank + 1
    {
      var blocked;
      attacksBitboard, blocked := CastFileStep(attacksBitboard, occupancy, rank, targetFile, -1, target);
      if blocked {
        break;
      }
      rank := rank - 1;
    }
    if !(rank >= 0) {
      RayOff(Squares(attacksBitboard), rank, targetFile, -1, 0, Squares(occupancy));
    }
  }

  /** The `file < 8` loop of generateRookAttacks. */
  method RayEast(attacks: Bitboard, occupancy: Bitboard, targetRank: int, targetFile: int)
    returns (attacksBitboard: Bitboard)
    requires OnBoard(targetRank, targetFile)
    ensures Squares(attacksBitboard) == Squares(attacks) + Ray(targetRank, targetFile + 1, 0, 1, Squares(occupancy))
  {
    attacksBitboard := attacks;
    ghost var target := Squares(attacks) + Ray(targetRank, targetFile + 1, 0, 1, Squares(occupancy));
    var file := targetFile + 1;
    while file < 8
      invariant 1 <= file
      invariant Squares(attacksBitboard) + Ray(targetRank, file, 0, 1, Squares(occupancy)) == target
      decreases 8 - file
    {
      var blocked;
      attacksBitboard, blocked := CastRankStep(attacksBitboard, occupancy, targetRank, file, 1, target);
      if blocked {
        break;
      }
      file := file + 1;
    }
    if !(file < 8) {
      RayOff(Squares(attacksBitboard), targetRank, file, 0, 1, Squares(occupancy));
    }
  }

  /** The `file >= 0` loop of generateRookAttacks. */
  method RayWest(attacks: Bitboard, occupancy: Bitboard, targetRank: int, targetFile: int)
    returns (attacksBitboard: Bitboard)
    requires OnBoard(targetRank, targetFile)
    ensures Squares(attacksBitboard) == Squares(attacks) + Ray(targetRank, targetFile - 1, 0, -1, Squares(occupancy))
  {
    attacksBitboard := attacks;
    ghost var target := Squares(attacks) + Ray(targetRank, targetFile - 1, 0, -1, Squares(occupancy));
    var file := targetFile - 1;
    while file >= 0
      invariant file <= 6
      invariant Squares(attacksBitboard) + Ray(targetRank, file, 0, -1, Squares(occupancy)) == target
      decreases file + 1
    {
      var blocked;
      attacksBitboard, blocked := CastRankStep(attacksBitboard, occupancy, targetRank, file, -1, target);
      if blocked {
        break;
      }
      file := file - 1;
    }
    if !(file >= 0) {
      RayOff(Squares(attacksBitboard), targetRank, file, 0, -1, Squares(occupancy));
    }
  }

  /** generateBishopAttacks: the squares a bishop on `squareIndex` attacks when `occupancy` holds the blockers. */
  method GenerateBishopAttacks(squareIndex: int, occupancy: Bitboard) returns (attacksBitboard: Bitboard)
    requires 0 <= squareIndex < 64
    ensures Squares(attacksBitboard) == BishopAttackSet(squareIndex, Squares(occupancy))
  {
    attacksBitboard := 0;
    var targetRank := squareIndex / 8;
    var targetFile := squareIndex % 8;
    SquaresZero();
    ghost var empty := attacksBitboard;
    attacksBitboard := RaySouthEast(attacksBitboard, occupancy, targetRank, targetFile);
    attacksBitboard := RayNorthEast(attacksBitboard, occupancy, targetRank, targetFile);
    attacksBitboard := RaySouthWest(attacksBitboard, occupancy, targetRank, targetFile);
    attacksBitboard := RayNorthWest(attacksBitboard, occupancy, targetRank, targetFile);
    FourRays(Squares(empty), Squares(attacksBitboard),
             Ray(targetRank + 1, targetFile + 1, 1, 1, Squares(occupancy)),
             Ray(targetRank - 1, targetFile + 1, -1, 1, Squares(occupancy)),
             Ray(targetRank + 1, targetFile - 1, 1, -1, Squares(occupancy)),
             Ray(targetRank - 1, targetFile - 1, -1, -1, Squares(occupancy)));
  }

  /** generateRookAttacks: the squares a rook on `squareIndex` attacks when `occupancy` holds the blockers. */
  method GenerateRookAttacks(squareIndex: int, occupancy: Bitboard) returns (attacksBitboard: Bitboard)
    requires 0 <= squareIndex < 64
    ensures Squares(attacksBitboard) == RookAttackSet(squareIndex, Squares(occupancy))
  {
    attacksBitboard := 0;
    var targetRank := squareIndex / 8;
    var targetFile := squareIndex % 8;
    SquaresZero();
    ghost var empty := attacksBitboard;
    attacksBitboard := RaySouth(attacksBitboard, occupancy, targetRank, targetFile);
    attacksBitboard := RayNorth(attacksBitboard, occupancy, targetRank, targetFile);
    attacksBitboard := RayEast(attacksBitboard, occupancy, targetRank, targetFile);
    attacksBitboard := RayWest(attacksBitboard, occupancy, targetRank, targetFile);
    FourRays(Squares(empty), Squares(attacksBitboard),
             Ray(targetRank + 1, targetFile, 1, 0, Squares(occupancy)),
             Ray(targetRank - 1, targetFile, -1, 0, Squares(occupancy)),
             Ray(targetRank, targetFile + 1, 0, 1, Squares(occupancy)),
             Ray(targetRank, targetFile - 1, 0, -1, Squares(occupancy)));
  }
}
