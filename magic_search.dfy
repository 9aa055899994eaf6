/**
 * The magic-number search of findMagicNumber (magic_bitboards.cpp).
 *
 * A magic number hashes every variation of blockers on a slider's relevant
 * mask to a slot: multiply (wrapping at 64 bits) and keep the top
 * `relevantBits` bits. It is usable when no two variations with different
 * attacks share a slot. The random draws are a parameter: `candidates(i)` is
 * the i-th number drawn.
 */
module MagicSearch {
  import opened Wrappers
  import opened Bitboards
  import opened Geometry
  import opened Occupancies
  import opened SliderAttacks

  /** Candidates tried before the search gives up. */
  const MAX_ATTEMPTS := 100000000

  /** Slots of the occupancy, attack and used-attack buffers. */
  const BUFFER_SIZE := 4096

  /** `x >> (64 - relevantBits)`: the top `relevantBits` bits of x. */
  function HighBits(x: Bitboard, relevantBits: int): Bitboard
    requires 1 <= relevantBits <= 12
  {
    x >> (64 - relevantBits)
  }

  /** `1 << relevantBits`: the number of variations of blockers on a mask of that many squares. */
  function MaxOccupancyIndex(relevantBits: int): (r: int)
    requires 1 <= relevantBits <= 12
    ensures r == Pow2(relevantBits) && 2 <= r <= BUFFER_SIZE
  {
    Pow2Bounded(relevantBits);
    Pow2(relevantBits)
  }

  /** The top `relevantBits` bits of x, as an index. */
  function TopBits(x: Bitboard, relevantBits: int): (r: int)
    requires 1 <= relevantBits <= 12
    ensures 0 <= r < Pow2(relevantBits)
  {
    TopBitsBound(x, relevantBits);
    HighBits(x, relevantBits) as int
  }

  /** The magic hash `(occupancy * magic) >> (64 - relevantBits)`, with a 64-bit wrapping product. */
  function MagicSlot(occupancy: Bitboard, magic: Bitboard, relevantBits: int): (r: int)
    requires 1 <= relevantBits <= 12
    ensures 0 <= r < Pow2(relevantBits)
  {
    TopBits(occupancy * magic, relevantBits)
  }

  /**
   * The magic hash, reached after `delay` steps that change nothing. A proof
   * that mentions a slot then expands the 64-bit product only where it needs
   * the slot's value; the table proofs never do, as they rely only on the
   * slot being a function of the occupancy below `Pow2(relevantBits)`.
   */
  function DelayedIndex(occupancy: Bitboard, magic: Bitboard, relevantBits: int, delay: nat): (r: int)
    requires 1 <= relevantBits <= 12
    ensures 0 <= r < Pow2(relevantBits)
  {
    if delay == 0 then MagicSlot(occupancy, magic, relevantBits) else DelayedIndex(occupancy, magic, relevantBits, delay - 1)
  }

  /** The slot of an occupancy under a magic number: `(occupancy * magic) >> (64 - relevantBits)`. */
  function MagicIndex(occupancy: Bitboard, magic: Bitboard, relevantBits: int): (r: int)
    requires 1 <= relevantBits <= 12
    ensures 0 <= r < Pow2(relevantBits)
  {
    DelayedIndex(occupancy, magic, relevantBits, 2)
  }

  lemma TopBitsBound(x: Bitboard, n: int)
    requires 1 <= n <= 12
    ensures (HighBits(x, n) as int) < Pow2(n)
  {
    PowersOfTwo();
    if n == 1 { Top1(x); }
    else if n == 2 { Top2(x); }
    else if n == 3 { Top3(x); }
    else if n == 4 { Top4(x); }
    else if n == 5 { Top5(x); }
    else if n == 6 { Top6(x); }
    else if n == 7 { Top7(x); }
    else if n == 8 { Top8(x); }
    else if n == 9 { Top9(x); }
    else if n == 10 { Top10(x); }
    else if n == 11 { Top11(x); }
    else { Top12(x); }
  }

  lemma Pow2Bounded(n: int)
    requires 1 <= n <= 12
    ensures 2 <= Pow2(n) <= BUFFER_SIZE
  {
    PowersOfTwo();
  }

  lemma PowersOfTwo()
    ensures Pow2(1) == 2 && Pow2(2) == 4 && Pow2(3) == 8 && Pow2(4) == 16 && Pow2(5) == 32 && Pow2(6) == 64
    ensures Pow2(7) == 128 && Pow2(8) == 256 && Pow2(9) == 512 && Pow2(10) == 1024 && Pow2(11) == 2048 && Pow2(12) == 4096
  {
  }

  lemma Top1(x: Bitboard)
    ensures (HighBits(x, 1) as int) < 2
  {
    assert HighBits(x, 1) < 2;
  }

  lemma Top2(x: Bitboard)
    ensures (HighBits(x, 2) as int) < 4
  {
    assert HighBits(x, 2) < 4;
  }

  lemma Top3(x: Bitboard)
    ensures (HighBits(x, 3) as int) < 8
  {
    assert HighBits(x, 3) < 8;
  }

  lemma Top4(x: Bitboard)
    ensures (HighBits(x, 4) as int) < 16
  {
    assert HighBits(x, 4) < 16;
  }

  lemma Top5(x: Bitboard)
    ensures (HighBits(x, 5) as int) < 32
  {
    assert HighBits(x, 5) < 32;
  }

  lemma Top6(x: Bitboard)
    ensures (HighBits(x, 6) as int) < 64
  {
    assert HighBits(x, 6) < 64;
  }

  lemma Top7(x: Bitboard)
    ensures (HighBits(x, 7) as int) < 128
  {
    assert HighBits(x, 7) < 128;
  }

  lemma Top8(x: Bitboard)
    ensures (HighBits(x, 8) as int) < 256
  {
    assert HighBits(x, 8) < 256;
  }

  lemma Top9(x: Bitboard)
    ensures (HighBits(x, 9) as int) < 512
  {
    assert HighBits(x, 9) < 512;
  }

  lemma Top10(x: Bitboard)
    ensures (HighBits(x, 10) as int) < 1024
  {
    assert HighBits(x, 10) < 1024;
  }

  lemma Top11(x: Bitboard)
    ensures (HighBits(x, 11) as int) < 2048
  {
    assert HighBits(x, 11) < 2048;
  }

  lemma Top12(x: Bitboard)
    ensures (HighBits(x, 12) as int) < 4096
  {
    assert HighBits(x, 12) < 4096;
  }

  /** The slot of each of the first `count` occupancies. */
  ghost function Slots(occupancies: seq<Bitboard>, count: int, magic: Bitboard, relevantBits: int): (r: seq<int>)
    requires 1 <= relevantBits <= 12 && 0 <= count <= |occupancies|
    ensures |r| == count
    ensures forall j :: 0 <= j < count ==> r[j] == MagicIndex(occupancies[j], magic, relevantBits)
  {
    seq(count, j requires 0 <= j < count => MagicIndex(occupancies[j], magic, relevantBits))
  }

  /** Among the first `count` entries, entries in the same slot have the same attacks. */
  ghost predicate SlotsAgree(slots: seq<int>, attacks: seq<Bitboard>, count: int)
    requires 0 <= count <= |slots| && count <= |attacks|
  {
    forall i, j :: 0 <= i < count && 0 <= j < count && slots[i] == slots[j] ==> attacks[i] == attacks[j]
  }

  /**
   * A magic number is collision-free on the first `count` entries when
   * entries hashed to the same slot have the same attacks.
   */
  ghost predicate CollisionFree(occupancies: seq<Bitboard>, attacks: seq<Bitboard>, count: int, magic: Bitboard, relevantBits: int)
    requires 1 <= relevantBits <= 12 && 0 <= count <= |occupancies| && count <= |attacks|
  {
    SlotsAgree(Slots(occupancies, count, magic, relevantBits), attacks, count)
  }

  /**
   * The bookkeeping of the test after `index` entries: `owner[m]` is the
   * first entry given slot m, or -1 while slot m is empty (holds 0); every
   * entry so far has an owner for its slot.
   */
  ghost predicate Ledger(used: seq<Bitboard>, owner: seq<int>, slots: seq<int>, atts: seq<Bitboard>, index: int)
  {
    |used| == |owner| && 0 <= index <= |slots| <= |atts| &&
    (forall j :: 0 <= j < |slots| ==> 0 <= slots[j] < |used|) &&
    (forall m :: 0 <= m < |owner| ==> -1 <= owner[m] < index) &&
    (forall m :: 0 <= m < |owner| ==> (used[m] == 0 <==> owner[m] == -1)) &&
    (forall m :: 0 <= m < |owner| && owner[m] != -1 ==> slots[owner[m]] == m && used[m] == atts[owner[m]]) &&
    (forall j :: 0 <= j < index ==> owner[slots[j]] != -1)
  }

  /** Entry `index` takes its empty slot. */
  lemma ClaimEmpty(used: seq<Bitboard>, owner: seq<int>, slots: seq<int>, atts: seq<Bitboard>, index: int)
    requires Ledger(used, owner, slots, atts, index) && index < |slots|
    requires used[slots[index]] == 0 && atts[index] != 0
    ensures Ledger(used[slots[index] := atts[index]], owner[slots[index] := index], slots, atts, index + 1)
    ensures SlotsAgree(slots, atts, index) ==> SlotsAgree(slots, atts, index + 1)
  {
    var m := slots[index];
    forall j | 0 <= j < index
      ensures slots[j] != m
    {
      assert owner[slots[j]] != -1;
    }
  }

  /** Entry `index` finds its slot holding the same attacks. */
  lemma ClaimShared(used: seq<Bitboard>, owner: seq<int>, slots: seq<int>, atts: seq<Bitboard>, index: int)
    requires Ledger(used, owner, slots, atts, index) && index < |slots|
    requires used[slots[index]] != 0 && used[slots[index]] == atts[index]
    ensures Ledger(used, owner, slots, atts, index + 1)
    ensures SlotsAgree(slots, atts, index) ==> SlotsAgree(slots, atts, index + 1)
  {
    var first := owner[slots[index]];
    assert slots[first] == slots[index] && atts[first] == atts[index];
  }

  /** Entry `index` finds its slot holding other attacks: the two entries collide. */
  lemma ClaimClash(used: seq<Bitboard>, owner: seq<int>, slots: seq<int>, atts: seq<Bitboard>, index: int)
    requires Ledger(used, owner, slots, atts, index) && index < |slots|
    requires used[slots[index]] != 0 && used[slots[index]] != atts[index]
    ensures !SlotsAgree(slots, atts, |slots|)
  {
    var first := owner[slots[index]];
    assert slots[first] == slots[index] && atts[first] != atts[index];
  }

  /** Before the first entry every slot is empty and unowned. */
  lemma LedgerStart(used: seq<Bitboard>, owner: seq<int>, slots: seq<int>, atts: seq<Bitboard>)
    requires |used| == |owner| && |slots| <= |atts|
    requires forall m :: 0 <= m < |used| ==> used[m] == 0 && owner[m] == -1
    requires forall j :: 0 <= j < |slots| ==> 0 <= slots[j] < |used|
    ensures Ledger(used, owner, slots, atts, 0) && SlotsAgree(slots, atts, 0)
  {
  }

  /** The collision test on the arrays is the test on their slots. */
  lemma CollisionFreeSlots(occupancies: seq<Bitboard>, attacks: seq<Bitboard>, count: int, magic: Bitboard, relevantBits: int)
    requires 1 <= relevantBits <= 12 && 0 <= count <= |occupancies| && count <= |attacks|
    ensures CollisionFree(occupancies, attacks, count, magic, relevantBits) ==
            SlotsAgree(Slots(occupancies, count, magic, relevantBits), attacks[..count], count)
  {
  }

  /**
   * One round of the test loop: entry `index`, hashed to `magicIndex`,
   * claims its slot, shares it with equal attacks, or fails.
   */
  method ClaimSlot(usedAttacks: array<Bitboard>, magicIndex: int, attack: Bitboard,
                   ghost owner: seq<int>, ghost slots: seq<int>, ghost atts: seq<Bitboard>, ghost index: int)
      returns (fFail: bool, ghost ownerAfter: seq<int>)
    requires Ledger(usedAttacks[..], owner, slots, atts, index) && SlotsAgree(slots, atts, index)
    requires index < |slots| && magicIndex == slots[index] && attack == atts[index] && attack != 0
    modifies usedAttacks
    ensures !fFail ==> Ledger(usedAttacks[..], ownerAfter, slots, atts, index + 1) && SlotsAgree(slots, atts, index + 1)
    ensures fFail ==> !SlotsAgree(slots, atts, |slots|)
  {
    ghost var used := usedAttacks[..];
    ownerAfter := owner;
    fFail := false;
    if usedAttacks[magicIndex] == 0 {
      ClaimEmpty(used, owner, slots, atts, index);
      usedAttacks[magicIndex] := attack;
      ownerAfter := owner[magicIndex := index];
      assert usedAttacks[..] == used[magicIndex := attack];
    } else if usedAttacks[magicIndex] != attack {
      ClaimClash(used, owner, slots, atts, index);
      fFail := true;
    } else {
      ClaimShared(used, owner, slots, atts, index);
    }
  }

  /**
   * The test of one candidate: clear `usedAttacks`, then give each occupancy
   * the slot its index names, failing at the first slot already holding other
   * attacks. An empty slot holds 0, which no attack set equals.
   */
  method TestMagic(occupancies: array<Bitboard>, attacks: array<Bitboard>, usedAttacks: array<Bitboard>,
                   maxOccupancyIndex: int, relevantBits: int, magicNumber: Bitboard)
      returns (fFail: bool)
    requires 1 <= relevantBits <= 12 && usedAttacks.Length == BUFFER_SIZE
    requires 0 <= maxOccupancyIndex <= occupancies.Length && maxOccupancyIndex <= attacks.Length
    requires usedAttacks != occupancies && usedAttacks != attacks
    requires forall j :: 0 <= j < maxOccupancyIndex ==> attacks[j] != 0
    modifies usedAttacks
    ensures !fFail <==> CollisionFree(occupancies[..], attacks[..], maxOccupancyIndex, magicNumber, relevantBits)
  {
    forall m | 0 <= m < usedAttacks.Length {
      usedAttacks[m] := 0;
    }
    ghost var slots := Slots(occupancies[..], maxOccupancyIndex, magicNumber, relevantBits);
    ghost var atts := attacks[..maxOccupancyIndex];
    ghost var owner: seq<int> := seq(BUFFER_SIZE, _ => -1);
    Pow2Bounded(relevantBits);
    LedgerStart(usedAttacks[..], owner, slots, atts);
    var index := 0;
    fFail := false;
    while !fFail && index < maxOccupancyIndex
      invariant 0 <= index <= maxOccupancyIndex
      invariant !fFail ==> Ledger(usedAttacks[..], owner, slots, atts, index) && SlotsAgree(slots, atts, index)
      invariant fFail ==> !SlotsAgree(slots, atts, maxOccupancyIndex)
      decreases maxOccupancyIndex - index, if fFail then 0 else 1
    {
      var magicIndex := MagicIndex(occupancies[index], magicNumber, relevantBits);
      fFail, owner := ClaimSlot(usedAttacks, magicIndex, attacks[index], owner, slots, atts, index);
      index := index + 1;
    }
    CollisionFreeSlots(occupancies[..], attacks[..], maxOccupancyIndex, magicNumber, relevantBits);
  }

  // ---------------------------------------------------------------------
  // findMagicNumber
  // ---------------------------------------------------------------------

  /** The relevant mask of a slider on s, as a bitboard. */
  function SliderMask(isBishop: bool, s: int): (b: Bitboard)
    ensures Squares(b) == SliderMaskSet(isBishop, s)
  {
    SliderMaskOnBoard(isBishop, s);
    FromSquares(SliderMaskSet(isBishop, s))
  }

  /** The blockers generateOccupancy places on `mask` for `occupancyIndex`. */
  function Variation(mask: Bitboard, relevantBits: int, occupancyIndex: int): (b: Bitboard)
    ensures Squares(b) == Occupancy(occupancyIndex, relevantBits, Squares(mask))
  {
    FromSquares(Occupancy(occupancyIndex, relevantBits, Squares(mask)))
  }

  /** A bitboard is a variation when it holds that variation's squares. */
  lemma IsVariation(b: Bitboard, mask: Bitboard, relevantBits: int, occupancyIndex: int)
    requires Squares(b) == Occupancy(occupancyIndex, relevantBits, Squares(mask))
    ensures b == Variation(mask, relevantBits, occupancyIndex)
  {
    Extensionality(b, Variation(mask, relevantBits, occupancyIndex));
  }

  /**
   * Variations hashed to the same slot by `magic` have the same slider
   * attacks: the property the candidate test decides.
   */
  ghost predicate Separates(mask: Bitboard, isBishop: bool, s: int, relevantBits: int, magic: Bitboard)
    requires 1 <= relevantBits <= 12
  {
    forall i, j ::
      0 <= i < MaxOccupancyIndex(relevantBits) && 0 <= j < MaxOccupancyIndex(relevantBits) &&
      MagicIndex(Variation(mask, relevantBits, i), magic, relevantBits) ==
        MagicIndex(Variation(mask, relevantBits, j), magic, relevantBits)
      ==> SliderAttackSet(isBishop, s, Occupancy(i, relevantBits, Squares(mask))) ==
          SliderAttackSet(isBishop, s, Occupancy(j, relevantBits, Squares(mask)))
  }

  /** The mask times the candidate keeps at least 6 bits in its top byte: the cheap pre-check. */
  ghost predicate DenseEnough(mask: Bitboard, magic: Bitboard)
  {
    PopCount((mask * magic) & 0xFF00_0000_0000_0000) >= 6
  }

  /** A candidate the search accepts for a slider on s with relevant mask `mask`. */
  ghost predicate Accepted(mask: Bitboard, isBishop: bool, s: int, relevantBits: int, magic: Bitboard)
    requires 1 <= relevantBits <= 12
  {
    DenseEnough(mask, magic) && Separates(mask, isBishop, s, relevantBits, magic)
  }

  /** The first `count` entries of the buffers hold each variation and its attacks. */
  ghost predicate Tabulated(occupancies: seq<Bitboard>, attacks: seq<Bitboard>, mask: Bitboard, isBishop: bool, s: int, relevantBits: int, count: int)
  {
    count <= |occupancies| && count <= |attacks| &&
    forall j :: 0 <= j < count ==> Tabulates(occupancies[j], attacks[j], mask, isBishop, s, relevantBits, j)
  }

  /** Entry j holds variation j and its attacks, which are never empty. */
  ghost predicate Tabulates(occupancy: Bitboard, attack: Bitboard, mask: Bitboard, isBishop: bool, s: int, relevantBits: int, j: int)
  {
    occupancy == Variation(mask, relevantBits, j) &&
    Squares(attack) == SliderAttackSet(isBishop, s, Squares(occupancy)) &&
    attack != 0
  }

  /** Tabulating entry `index` extends the tabulated prefix by one. */
  lemma TabulatedExtend(occupancies: seq<Bitboard>, attacks: seq<Bitboard>, mask: Bitboard, isBishop: bool, s: int, relevantBits: int,
                        index: int, occupancy: Bitboard, attack: Bitboard)
    requires 0 <= index < |occupancies| && index < |attacks|
    requires Tabulated(occupancies, attacks, mask, isBishop, s, relevantBits, index)
    requires Tabulates(occupancy, attack, mask, isBishop, s, relevantBits, index)
    ensures Tabulated(occupancies[index := occupancy], attacks[index := attack], mask, isBishop, s, relevantBits, index + 1)
  {
    var occs, atts := occupancies[index := occupancy], attacks[index := attack];
    forall j | 0 <= j < index + 1
      ensures Tabulates(occs[j], atts[j], mask, isBishop, s, relevantBits, j)
    {
      if j < index {
        assert occs[j] == occupancies[j] && atts[j] == attacks[j];
      }
    }
  }

  /** On tabulated buffers, the array test decides exactly whether the magic separates the variations. */
  lemma CollisionFreeSeparates(occupancies: seq<Bitboard>, attacks: seq<Bitboard>, mask: Bitboard, isBishop: bool, s: int,
                               relevantBits: int, magic: Bitboard)
    requires 1 <= relevantBits <= 12 && MaxOccupancyIndex(relevantBits) <= |occupancies| && MaxOccupancyIndex(relevantBits) <= |attacks|
    requires Tabulated(occupancies, attacks, mask, isBishop, s, relevantBits, MaxOccupancyIndex(relevantBits))
    ensures CollisionFree(occupancies, attacks, MaxOccupancyIndex(relevantBits), magic, relevantBits) <==> Separates(mask, isBishop, s, relevantBits, magic)
  {
    if CollisionFree(occupancies, attacks, MaxOccupancyIndex(relevantBits), magic, relevantBits) {
      SeparatesOfCollisionFree(occupancies, attacks, mask, isBishop, s, relevantBits, magic);
    }
    if Separates(mask, isBishop, s, relevantBits, magic) {
      CollisionFreeOfSeparates(occupancies, attacks, mask, isBishop, s, relevantBits, magic);
    }
  }

  lemma SeparatesOfCollisionFree(occupancies: seq<Bitboard>, attacks: seq<Bitboard>, mask: Bitboard, isBishop: bool, s: int,
                                 relevantBits: int, magic: Bitboard)
    requires 1 <= relevantBits <= 12 && MaxOccupancyIndex(relevantBits) <= |occupancies| && MaxOccupancyIndex(relevantBits) <= |attacks|
    requires Tabulated(occupancies, attacks, mask, isBishop, s, relevantBits, MaxOccupancyIndex(relevantBits))
    requires CollisionFree(occupancies, attacks, MaxOccupancyIndex(relevantBits), magic, relevantBits)
    ensures Separates(mask, isBishop, s, relevantBits, magic)
  {
    var n := MaxOccupancyIndex(relevantBits);
    var slots := Slots(occupancies, n, magic, relevantBits);
    forall i, j | 0 <= i < n && 0 <= j < n &&
        MagicIndex(Variation(mask, relevantBits, i), magic, relevantBits) ==
        MagicIndex(Variation(mask, relevantBits, j), magic, relevantBits)
      ensures SliderAttackSet(isBishop, s, Occupancy(i, relevantBits, Squares(mask))) ==
              SliderAttackSet(isBishop, s, Occupancy(j, relevantBits, Squares(mask)))
    {
      assert Tabulates(occupancies[i], attacks[i], mask, isBishop, s, relevantBits, i);
      assert Tabulates(occupancies[j], attacks[j], mask, isBishop, s, relevantBits, j);
      assert attacks[i] == attacks[j] by {
        assert slots[i] == slots[j];
      }
    }
  }

  lemma CollisionFreeOfSeparates(occupancies: seq<Bitboard>, attacks: seq<Bitboard>, mask: Bitboard, isBishop: bool, s: int,
                                 relevantBits: int, magic: Bitboard)
    requires 1 <= relevantBits <= 12 && MaxOccupancyIndex(relevantBits) <= |occupancies| && MaxOccupancyIndex(relevantBits) <= |attacks|
    requires Tabulated(occupancies, attacks, mask, isBishop, s, relevantBits, MaxOccupancyIndex(relevantBits))
    requires Separates(mask, isBishop, s, relevantBits, magic)
    ensures CollisionFree(occupancies, attacks, MaxOccupancyIndex(relevantBits), magic, relevantBits)
  {
    var n := MaxOccupancyIndex(relevantBits);
    var slots := Slots(occupancies, n, magic, relevantBits);
    forall i, j | 0 <= i < n && 0 <= j < n && slots[i] == slots[j]
      ensures attacks[i] == attacks[j]
    {
      assert Tabulates(occupancies[i], attacks[i], mask, isBishop, s, relevantBits, i);
      assert Tabulates(occupancies[j], attacks[j], mask, isBishop, s, relevantBits, j);
      Extensionality(attacks[i], attacks[j]);
    }
  }

  /** One round of the first loop: variation `index` and the attacks it leaves. */
  method TabulateEntry(squareIndex: int, relevantBits: int, fBishop: bool, attackMask: Bitboard, index: int)
      returns (ok: bool, occupancy: Bitboard, attack: Bitboard)
    requires 0 <= squareIndex < 64 && 1 <= relevantBits <= 12
    ensures ok <==> relevantBits <= PopCount(attackMask)
    ensures ok ==> Tabulates(occupancy, attack, attackMask, fBishop, squareIndex, relevantBits, index)
  {
    var generated := GenerateOccupancy(index, relevantBits, attackMask);
    if generated.Failure? {
      return false, 0, 0;
    }
    occupancy := generated.value;
    IsVariation(occupancy, attackMask, relevantBits, index);
    if fBishop {
      attack := GenerateBishopAttacks(squareIndex, occupancy);
    } else {
      attack := GenerateRookAttacks(squareIndex, occupancy);
    }
    SliderNonEmpty(fBishop, squareIndex, Squares(occupancy));
    ZeroIsEmpty(attack);
    ok := true;
  }

  /**
   * The first loop of findMagicNumber: every variation of blockers on the
   * mask and the slider attacks it leaves. Fails, as generateOccupancy does,
   * when the mask has fewer than `relevantBits` squares.
   */
  method FillVariations(squareIndex: int, relevantBits: int, fBishop: bool, attackMask: Bitboard)
      returns (ok: bool, occupancies: array<Bitboard>, attacks: array<Bitboard>)
    requires 0 <= squareIndex < 64 && 1 <= relevantBits <= 12
    ensures fresh(occupancies) && fresh(attacks)
    ensures occupancies.Length == BUFFER_SIZE && attacks.Length == BUFFER_SIZE
    ensures ok <==> relevantBits <= PopCount(attackMask)
    ensures ok ==> Tabulated(occupancies[..], attacks[..], attackMask, fBishop, squareIndex, relevantBits, MaxOccupancyIndex(relevantBits))
  {
    occupancies := new Bitboard[BUFFER_SIZE];
    attacks := new Bitboard[BUFFER_SIZE];
    var maxOccupancyIndex := MaxOccupancyIndex(relevantBits);
    for index := 0 to maxOccupancyIndex
      invariant Tabulated(occupancies[..], attacks[..], attackMask, fBishop, squareIndex, relevantBits, index)
      invariant index > 0 ==> relevantBits <= PopCount(attackMask)
    {
      var ok, occupancy, attack := TabulateEntry(squareIndex, relevantBits, fBishop, attackMask, index);
      if !ok {
        return false, occupancies, attacks;
      }
      ghost var occs, atts := occupancies[..], attacks[..];
      TabulatedExtend(occs, atts, attackMask, fBishop, squareIndex, relevantBits, index, occupancy, attack);
      occupancies[index] := occupancy;
      attacks[index] := attack;
      assert occupancies[..] == occs[index := occupancy] && attacks[..] == atts[index := attack];
    }
    ok := true;
  }

  /** No verdict among the first n is positive. */
  ghost predicate NoneOf(verdict: nat -> bool, n: nat)
  {
    n == 0 || (NoneOf(verdict, n - 1) && !verdict(n - 1))
  }

  /** `NoneOf` spelled out verdict by verdict. */
  lemma {:induction false} NoneOfEach(verdict: nat -> bool, n: nat)
    ensures NoneOf(verdict, n) <==> forall k: nat :: k < n ==> !verdict(k)
  {
    if n > 0 {
      NoneOfEach(verdict, n - 1);
    }
  }

  /** None of the first n draws is accepted. */
  ghost predicate NoneAccepted(mask: Bitboard, isBishop: bool, s: int, relevantBits: int, candidates: nat -> Bitboard, n: nat)
    requires 1 <= relevantBits <= 12
  {
    NoneOf((k: nat) => Accepted(mask, isBishop, s, relevantBits, candidates(k)), n)
  }

  /**
   * Candidate `magic` is the first of the draws the search accepts. The
   * earlier draws all fail the pre-check or the collision test.
   */
  ghost predicate FirstAccepted(mask: Bitboard, isBishop: bool, s: int, relevantBits: int, candidates: nat -> Bitboard, magic: Bitboard)
    requires 1 <= relevantBits <= 12
  {
    exists k: nat :: k < MAX_ATTEMPTS && candidates(k) == magic && Accepted(mask, isBishop, s, relevantBits, magic) &&
      NoneAccepted(mask, isBishop, s, relevantBits, candidates, k)
  }

  lemma TabulatedNonZero(occupancies: seq<Bitboard>, attacks: seq<Bitboard>, mask: Bitboard, isBishop: bool, s: int, relevantBits: int, count: int)
    requires 0 <= count <= |occupancies| && count <= |attacks|
    requires Tabulated(occupancies, attacks, mask, isBishop, s, relevantBits, count)
    ensures forall j :: 0 <= j < count ==> attacks[j] != 0
  {
    forall j | 0 <= j < count
      ensures attacks[j] != 0
    {
      assert Tabulates(occupancies[j], attacks[j], mask, isBishop, s, relevantBits, j);
    }
  }

  /**
   * One round of the candidate loop: the pre-check on the mask times the
   * candidate, then the collision test over the tabulated variations.
   */
  method TryCandidate(occupancies: array<Bitboard>, attacks: array<Bitboard>, usedAttacks: array<Bitboard>,
                      attackMask: Bitboard, squareIndex: int, relevantBits: int, fBishop: bool, magicNumber: Bitboard)
      returns (accepted: bool)
    requires 1 <= relevantBits <= 12
    requires occupancies.Length == BUFFER_SIZE && attacks.Length == BUFFER_SIZE && usedAttacks.Length == BUFFER_SIZE
    requires usedAttacks != occupancies && usedAttacks != attacks
    requires Tabulated(occupancies[..], attacks[..], attackMask, fBishop, squareIndex, relevantBits, MaxOccupancyIndex(relevantBits))
    modifies usedAttacks
    ensures accepted == Accepted(attackMask, fBishop, squareIndex, relevantBits, magicNumber)
  {
    var dense := GetPopulationCount((attackMask * magicNumber) & 0xFF00_0000_0000_0000);
    if dense < 6 {
      return false;
    }
    var maxOccupancyIndex := MaxOccupancyIndex(relevantBits);
    TabulatedNonZero(occupancies[..], attacks[..], attackMask, fBishop, squareIndex, relevantBits, maxOccupancyIndex);
    var fFail := TestMagic(occupancies, attacks, usedAttacks, maxOccupancyIndex, relevantBits, magicNumber);
    CollisionFreeSeparates(occupancies[..], attacks[..], attackMask, fBishop, squareIndex, relevantBits, magicNumber);
    accepted := !fFail;
  }

  /** The candidate loop of findMagicNumber: the first accepted draw, or failure after MAX_ATTEMPTS. */
  method SearchCandidates(occupancies: array<Bitboard>, attacks: array<Bitboard>, attackMask: Bitboard,
                          squareIndex: int, relevantBits: int, fBishop: bool, candidates: nat -> Bitboard)
      returns (r: Result<Bitboard>)
    requires 1 <= relevantBits <= 12
    requires occupancies.Length == BUFFER_SIZE && attacks.Length == BUFFER_SIZE
    requires Tabulated(occupancies[..], attacks[..], attackMask, fBishop, squareIndex, relevantBits, MaxOccupancyIndex(relevantBits))
    ensures r.Success? ==> FirstAccepted(attackMask, fBishop, squareIndex, relevantBits, candidates, r.value)
    ensures r.Failure? ==>
      r.error == CannotFindMagicNumber &&
      NoneAccepted(attackMask, fBishop, squareIndex, relevantBits, candidates, MAX_ATTEMPTS)
  {
    var usedAttacks := new Bitboard[BUFFER_SIZE];
    for i := 0 to MAX_ATTEMPTS
      invariant NoneAccepted(attackMask, fBishop, squareIndex, relevantBits, candidates, i)
    {
      var magicNumber := candidates(i);
      var accepted := TryCandidate(occupancies, attacks, usedAttacks, attackMask, squareIndex, relevantBits, fBishop, magicNumber);
      if accepted {
        return Success(magicNumber);
      }
    }
    return Failure(CannotFindMagicNumber);
  }

  /**
   * findMagicNumber: tabulate the variations, then try the draws in order
   * until one passes the pre-check and the collision test. `candidates(i)` is
   * the i-th random draw.
   */
  method FindMagicNumber(squareIndex: int, relevantBits: int, fBishop: bool, candidates: nat -> Bitboard)
      returns (r: Result<Bitboard>)
    requires 0 <= squareIndex < 64 && 1 <= relevantBits <= 12
    ensures r == Failure(LSBOfEmptyBitboard) <==> relevantBits > |SliderMaskSet(fBishop, squareIndex)|
    ensures r.Success? ==> FirstAccepted(SliderMask(fBishop, squareIndex), fBishop, squareIndex, relevantBits, candidates, r.value)
    ensures r.Failure? && r.error != LSBOfEmptyBitboard ==>
      r.error == CannotFindMagicNumber &&
      NoneAccepted(SliderMask(fBishop, squareIndex), fBishop, squareIndex, relevantBits, candidates, MAX_ATTEMPTS)
  {
    var attackMask;
    if fBishop {
      attackMask := MaskBishopAttacks(squareIndex);
    } else {
      attackMask := MaskRookAttacks(squareIndex);
    }
    var ok, occupancies, attacks := FillVariations(squareIndex, relevantBits, fBishop, attackMask);
    if !ok {
      return Failure(LSBOfEmptyBitboard);
    }
    Extensionality(attackMask, SliderMask(fBishop, squareIndex));
    r := SearchCandidates(occupancies, attacks, attackMask, squareIndex, relevantBits, fBishop, candidates);
  }
}
