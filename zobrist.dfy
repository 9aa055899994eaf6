/**
 * Zobrist hashing of a board (main.cpp, the key tables and generateHash).
 *
 * The keys are drawn at random by generateKeys; here they are an input.
 * The hash of a position is the XOR of one key per piece on a square, the
 * key of the en-passant square when there is one, the key of the castling
 * rights, and the side key when black is to move. Because XOR is its own
 * inverse, putting a piece on a square or taking it off both XOR the same
 * key into the hash; the toggle lemmas below state this, and makeMove's
 * incremental update relies on it.
 */
module Zobrist {
  import opened Wrappers
  import opened Bitboards
  import opened Geometry
  import opened BoardStates

  /** PIECE_KEYS[12][64], ENPASSANT_KEYS[64], CASTLING_KEYS[16] and SIDE_KEY. */
  datatype ZobristKeys = ZobristKeys(
    pieceKeys: seq<seq<Bitboard>>,
    enPassantKeys: seq<Bitboard>,
    castlingKeys: seq<Bitboard>,
    sideKey: Bitboard)

  /** The key tables have the sizes of their declarations. */
  predicate KeysShaped(keys: ZobristKeys)
  {
    |keys.pieceKeys| == 12 && (forall p :: 0 <= p < 12 ==> |keys.pieceKeys[p]| == 64) &&
    |keys.enPassantKeys| == 64 && |keys.castlingKeys| == 16
  }

  /** The test generateHash makes to tell that generateKeys has run: the first key of each table is not 0. */
  predicate KeysGenerated(keys: ZobristKeys)
    requires KeysShaped(keys)
  {
    keys.pieceKeys[0][0] != 0 && keys.castlingKeys[0] != 0 && keys.enPassantKeys[0] != 0 && keys.sideKey != 0
  }

  // ---------------------------------------------------------------------
  // XOR
  // ---------------------------------------------------------------------

  /**
   * `a ^ b` on hash words. It is reached after two steps that change
   * nothing, so that proofs about hashes combine the laws below instead of
   * reasoning about the 64 bits: a bare `^` inside the long chains of
   * makeMove's hash updates makes the solver blast every word into its
   * bits, while the two unfoldings are taken only where XorIs asks for
   * them.
   */
  function Xor(a: Bitboard, b: Bitboard): Bitboard
  {
    XorAfter(a, b, 2)
  }

  function XorAfter(a: Bitboard, b: Bitboard, delay: nat): Bitboard
    decreases delay
  {
    if delay == 0 then a ^ b else XorAfter(a, b, delay - 1)
  }

  /** x is a ^ b. */
  predicate XorOf(x: Bitboard, a: Bitboard, b: Bitboard)
  {
    x == a ^ b
  }

  lemma XorIs(a: Bitboard, b: Bitboard)
    ensures XorOf(Xor(a, b), a, b)
  {
    assert XorAfter(a, b, 1) == XorAfter(a, b, 0);
  }

  lemma AssocOf(a: Bitboard, b: Bitboard, c: Bitboard, ab: Bitboard, bc: Bitboard, l: Bitboard, r: Bitboard)
    requires XorOf(ab, a, b) && XorOf(bc, b, c) && XorOf(l, ab, c) && XorOf(r, a, bc)
    ensures l == r
  {
  }

  lemma CommOf(a: Bitboard, b: Bitboard, x: Bitboard, y: Bitboard)
    requires XorOf(x, a, b) && XorOf(y, b, a)
    ensures x == y
  {
  }

  lemma SelfOf(a: Bitboard, x: Bitboard)
    requires XorOf(x, a, a)
    ensures x == 0
  {
  }

  lemma ZeroOf(a: Bitboard, x: Bitboard, y: Bitboard)
    requires XorOf(x, a, 0) && XorOf(y, 0, a)
    ensures x == a && y == a
  {
  }

  lemma XorZero(a: Bitboard)
    ensures Xor(a, 0) == a && Xor(0, a) == a
  {
    XorIs(a, 0);
    XorIs(0, a);
    ZeroOf(a, Xor(a, 0), Xor(0, a));
  }

  lemma XorSelf(a: Bitboard)
    ensures Xor(a, a) == 0
  {
    XorIs(a, a);
    SelfOf(a, Xor(a, a));
  }

  lemma XorComm(a: Bitboard, b: Bitboard)
    ensures Xor(a, b) == Xor(b, a)
  {
    XorIs(a, b);
    XorIs(b, a);
    CommOf(a, b, Xor(a, b), Xor(b, a));
  }

  lemma XorAssoc(a: Bitboard, b: Bitboard, c: Bitboard)
    ensures Xor(Xor(a, b), c) == Xor(a, Xor(b, c))
  {
    XorIs(a, b);
    XorIs(b, c);
    XorIs(Xor(a, b), c);
    XorIs(a, Xor(b, c));
    AssocOf(a, b, c, Xor(a, b), Xor(b, c), Xor(Xor(a, b), c), Xor(a, Xor(b, c)));
  }

  lemma XorSwap(a: Bitboard, b: Bitboard, c: Bitboard)
    ensures Xor(a, Xor(b, c)) == Xor(b, Xor(a, c))
  {
    XorAssoc(a, b, c);
    XorAssoc(b, a, c);
    XorComm(a, b);
  }

  /** Undoing an XOR: from b == a ^ c follows c == a ^ b. */
  lemma XorCancel(a: Bitboard, b: Bitboard, c: Bitboard)
    requires b == Xor(a, c)
    ensures c == Xor(a, b)
  {
    XorAssoc(a, a, c);
    XorSelf(a);
    XorZero(c);
  }

  /** Replacing a term: (a ^ o ^ o) ^ x == a ^ x. */
  lemma XorReplace(a: Bitboard, o: Bitboard, x: Bitboard)
    ensures Xor(Xor(Xor(a, o), o), x) == Xor(a, x)
  {
    XorAssoc(a, o, o);
    XorSelf(o);
    XorZero(a);
  }

  /** Moving a term past another: (a ^ k) ^ r == (a ^ r) ^ k. */
  lemma XorRotate3(a: Bitboard, k: Bitboard, r: Bitboard)
    ensures Xor(Xor(a, k), r) == Xor(Xor(a, r), k)
  {
    XorAssoc(a, k, r);
    XorComm(k, r);
    XorAssoc(a, r, k);
  }

  /** Moving a term past two others: ((a ^ o) ^ x) ^ c == ((a ^ c) ^ o) ^ x. */
  lemma XorRotate(a: Bitboard, o: Bitboard, x: Bitboard, c: Bitboard)
    ensures Xor(Xor(Xor(a, o), x), c) == Xor(Xor(Xor(a, c), o), x)
  {
    XorAssoc(Xor(a, o), x, c);
    XorComm(x, c);
    XorAssoc(Xor(a, o), c, x);
    XorAssoc(a, o, c);
    XorComm(o, c);
    XorAssoc(a, c, o);
  }

  /** (o ^ a) ^ (o ^ k) == a ^ k. */
  lemma XorUndoLeft(o: Bitboard, a: Bitboard, k: Bitboard)
    ensures Xor(Xor(o, a), Xor(o, k)) == Xor(a, k)
  {
    XorComm(o, a);
    XorComm(o, k);
    XorUndo(a, o, k);
  }

  /** (a ^ o) ^ (k ^ o) == a ^ k. */
  lemma XorUndo(a: Bitboard, o: Bitboard, k: Bitboard)
    ensures Xor(Xor(a, o), Xor(k, o)) == Xor(a, k)
  {
    XorAssoc(a, o, Xor(k, o));
    XorSwap(o, k, o);
    XorAssoc(o, o, k);
    XorSelf(o);
    XorZero(k);
  }

  // ---------------------------------------------------------------------
  // The hash of one piece board
  // ---------------------------------------------------------------------

  /** The XOR of keys[k] over the squares k >= from that are in `squares`, lowest square outermost. */
  function SetHash(keys: seq<Bitboard>, squares: set<int>, from: int): Bitboard
    requires |keys| == 64 && 0 <= from <= 64
    decreases 64 - from
  {
    if from == 64 then 0
    else if from in squares then Xor(keys[from], SetHash(keys, squares, from + 1))
    else SetHash(keys, squares, from + 1)
  }

  /** The hash contribution of a piece board under that piece's 64 keys. */
  function BoardHash(keys: seq<Bitboard>, b: Bitboard): Bitboard
    requires |keys| == 64
  {
    SetHash(keys, Squares(b), 0)
  }

  /** Adding a square x that is not yet present XORs keys[x] in, whatever the order of the fold. */
  lemma {:induction false} SetHashAdd(keys: seq<Bitboard>, squares: set<int>, x: int, from: int)
    requires |keys| == 64 && 0 <= from <= 64 && 0 <= x < 64 && x !in squares
    ensures SetHash(keys, squares + {x}, from) ==
      if from <= x then Xor(keys[x], SetHash(keys, squares, from)) else SetHash(keys, squares, from)
    decreases 64 - from
  {
    if from < 64 {
      SetHashAdd(keys, squares, x, from + 1);
      if from < x && from in squares {
        XorSwap(keys[from], keys[x], SetHash(keys, squares, from + 1));
      }
    }
  }

  /**
   * setBit of an absent square and popBit of a present one each XOR that
   * square's key into the board's hash.
   */
  lemma BoardToggle(keys: seq<Bitboard>, b: Bitboard, s: int)
    requires |keys| == 64 && 0 <= s < 64
    ensures s !in Squares(b) ==> BoardHash(keys, SetBit(b, s)) == Xor(keys[s], BoardHash(keys, b))
    ensures s in Squares(b) ==> BoardHash(keys, PopBit(b, s)) == Xor(keys[s], BoardHash(keys, b))
  {
    if s !in Squares(b) {
      SetHashAdd(keys, Squares(b), s, 0);
    } else {
      var rest := Squares(PopBit(b, s));
      assert rest + {s} == Squares(b);
      SetHashAdd(keys, rest, s, 0);
      XorCancel(keys[s], BoardHash(keys, b), BoardHash(keys, PopBit(b, s)));
    }
  }

  // ---------------------------------------------------------------------
  // The hash of all twelve piece boards
  // ---------------------------------------------------------------------

  /** The XOR of the board hashes of pieces 0 .. n-1, in the order generateHash visits them. */
  function PiecesHash(keys: ZobristKeys, boards: seq<Bitboard>, n: int): Bitboard
    requires KeysShaped(keys) && |boards| == 12 && 0 <= n <= 12
  {
    if n == 0 then 0 else Xor(PiecesHash(keys, boards, n - 1), BoardHash(keys.pieceKeys[n - 1], boards[n - 1]))
  }

  /** Replacing board p changes the hash by the old and the new board hash of p, and nothing else. */
  lemma {:induction false} PiecesHashUpdate(keys: ZobristKeys, boards: seq<Bitboard>, p: int, b: Bitboard, n: int)
    requires KeysShaped(keys) && |boards| == 12 && 0 <= p < 12 && 0 <= n <= 12
    ensures PiecesHash(keys, boards[p := b], n) ==
      if p < n then Xor(Xor(PiecesHash(keys, boards, n), BoardHash(keys.pieceKeys[p], boards[p])), BoardHash(keys.pieceKeys[p], b))
      else PiecesHash(keys, boards, n)
  {
    if n > 0 {
      PiecesHashUpdate(keys, boards, p, b, n - 1);
      var rest, was, now := PiecesHash(keys, boards, n - 1), BoardHash(keys.pieceKeys[p], boards[p]), BoardHash(keys.pieceKeys[p], b);
      if p == n - 1 {
        XorReplace(rest, was, now);
      } else if p < n - 1 {
        XorRotate(rest, was, now, BoardHash(keys.pieceKeys[n - 1], boards[n - 1]));
      }
    }
  }

  /** Putting piece p on an empty square s, or taking it off an occupied one, XORs PIECE_KEYS[p][s] into the hash. */
  lemma PiecesToggle(keys: ZobristKeys, boards: seq<Bitboard>, p: int, s: int)
    requires KeysShaped(keys) && |boards| == 12 && 0 <= p < 12 && 0 <= s < 64
    ensures s !in Squares(boards[p]) ==>
      PiecesHash(keys, boards[p := SetBit(boards[p], s)], 12) == Xor(PiecesHash(keys, boards, 12), keys.pieceKeys[p][s])
    ensures s in Squares(boards[p]) ==>
      PiecesHash(keys, boards[p := PopBit(boards[p], s)], 12) == Xor(PiecesHash(keys, boards, 12), keys.pieceKeys[p][s])
  {
    var keysOfP := keys.pieceKeys[p];
    var b := if s in Squares(boards[p]) then PopBit(boards[p], s) else SetBit(boards[p], s);
    BoardToggle(keysOfP, boards[p], s);
    PiecesHashUpdate(keys, boards, p, b, 12);
    XorUndo(PiecesHash(keys, boards, 12), BoardHash(keysOfP, boards[p]), keysOfP[s]);
  }

  // ---------------------------------------------------------------------
  // The hash of a position
  // ---------------------------------------------------------------------

  /** ENPASSANT_KEYS[ep] when there is an en-passant square, else nothing. */
  function EnPassantHash(keys: ZobristKeys, enPassantSquareIndex: int): Bitboard
    requires KeysShaped(keys) && 0 <= enPassantSquareIndex <= NO_SQUARE_INDEX
  {
    if enPassantSquareIndex != NO_SQUARE_INDEX then keys.enPassantKeys[enPassantSquareIndex] else 0
  }

  /** SIDE_KEY when black is to move, else nothing. */
  function SideHash(keys: ZobristKeys, sideToMove: int): Bitboard
  {
    if sideToMove == BLACK then keys.sideKey else 0
  }

  /** The keys of the en-passant square, the castling rights and the side, combined in the order generateHash adds them. */
  function ExtrasHash(keys: ZobristKeys, st: BoardState): Bitboard
    requires KeysShaped(keys) && WellFormed(st)
  {
    Xor(Xor(EnPassantHash(keys, st.enPassantSquareIndex), keys.castlingKeys[st.canCastle as int]),
        SideHash(keys, st.sideToMove))
  }

  /**
   * What generateHash XORs into `hashKey`: the pieces (white pawn first,
   * each board lowest square first), then the en-passant key, the castling
   * key and the side key.
   */
  function ZobristHash(keys: ZobristKeys, st: BoardState): Bitboard
    requires KeysShaped(keys) && WellFormed(st)
  {
    Xor(PiecesHash(keys, st.bitboards, 12), ExtrasHash(keys, st))
  }

  /**
   * How far the stored `hashKey` is from the hash of the position it
   * describes. generateHash never zeroes `hashKey`, so after it runs the
   * drift is the value `hashKey` held before; an incremental update is
   * right exactly when it leaves the drift alone.
   */
  function Drift(keys: ZobristKeys, st: BoardState): Bitboard
    requires KeysShaped(keys) && WellFormed(st)
  {
    Xor(st.hashKey, ZobristHash(keys, st))
  }

  /** The same drift means the two hash keys differ exactly as the two position hashes do. */
  lemma SameDrift(keys: ZobristKeys, st: BoardState, st': BoardState)
    requires KeysShaped(keys) && WellFormed(st) && WellFormed(st')
    requires Drift(keys, st') == Drift(keys, st)
    ensures Xor(st'.hashKey, st.hashKey) == Xor(ZobristHash(keys, st'), ZobristHash(keys, st))
  {
    var h, h', z, z' := st.hashKey, st'.hashKey, ZobristHash(keys, st), ZobristHash(keys, st');
    XorUndo(h', z', h);
    XorUndoLeft(h, z, z');
    XorComm(z, z');
  }

  // ---------------------------------------------------------------------
  // Incremental updates that keep the drift
  // ---------------------------------------------------------------------

  /** XORing a piece key into both the hash key and the pieces' hash keeps the drift. */
  lemma DriftToggle(keys: ZobristKeys, st: BoardState, st': BoardState, k: Bitboard)
    requires KeysShaped(keys) && WellFormed(st) && WellFormed(st')
    requires st'.hashKey == Xor(st.hashKey, k)
    requires PiecesHash(keys, st'.bitboards, 12) == Xor(PiecesHash(keys, st.bitboards, 12), k)
    requires ExtrasHash(keys, st') == ExtrasHash(keys, st)
    ensures Drift(keys, st') == Drift(keys, st)
  {
    var h, p, r := st.hashKey, PiecesHash(keys, st.bitboards, 12), ExtrasHash(keys, st);
    XorRotate3(p, k, r);
    XorUndo(h, k, Xor(p, r));
  }

  /**
   * XORing the keys x and y into the hash key while the extras change by
   * the same two keys (one key leaves, one arrives) keeps the drift.
   */
  lemma DriftExtras(keys: ZobristKeys, st: BoardState, st': BoardState, x: Bitboard, y: Bitboard)
    requires KeysShaped(keys) && WellFormed(st) && WellFormed(st')
    requires st'.hashKey == Xor(Xor(st.hashKey, x), y)
    requires st'.bitboards == st.bitboards
    requires ExtrasHash(keys, st') == Xor(Xor(ExtrasHash(keys, st), x), y)
    ensures Drift(keys, st') == Drift(keys, st)
  {
    var h, p, r := st.hashKey, PiecesHash(keys, st.bitboards, 12), ExtrasHash(keys, st);
    XorAssoc(p, Xor(r, x), y);
    XorAssoc(p, r, x);
    XorUndo(Xor(h, x), y, Xor(Xor(p, r), x));
    XorUndo(h, x, Xor(p, r));
  }

  /** Taking u out and putting u' in: ((u ^ w) ^ u) ^ u' == u' ^ w. */
  lemma SwapTerm(u: Bitboard, w: Bitboard, u': Bitboard)
    ensures Xor(Xor(Xor(u, w), u), u') == Xor(u', w)
  {
    XorComm(u, w);
    XorAssoc(w, u, u);
    XorSelf(u);
    XorZero(w);
    XorComm(w, u');
  }

  /** XORing a key in twice changes nothing. */
  lemma XorTwice(t: Bitboard, x: Bitboard)
    ensures Xor(Xor(t, x), x) == t
  {
    XorAssoc(t, x, x);
    XorSelf(x);
    XorZero(t);
  }

  /** Replacing the en-passant term of the extras. */
  lemma ReplaceFirst(e: Bitboard, c: Bitboard, s: Bitboard, e': Bitboard)
    ensures Xor(Xor(e', c), s) == Xor(Xor(Xor(Xor(e, c), s), e), e')
  {
    XorAssoc(e, c, s);
    XorAssoc(e', c, s);
    SwapTerm(e, Xor(c, s), e');
  }

  /** Replacing the castling term of the extras. */
  lemma ReplaceSecond(e: Bitboard, c: Bitboard, s: Bitboard, c': Bitboard)
    ensures Xor(Xor(e, c'), s) == Xor(Xor(Xor(Xor(e, c), s), c), c')
  {
    XorComm(e, c);
    XorAssoc(c, e, s);
    XorComm(e, c');
    XorAssoc(c', e, s);
    SwapTerm(c, Xor(e, s), c');
  }

  /** Replacing the side term of the extras. */
  lemma ReplaceThird(e: Bitboard, c: Bitboard, s: Bitboard, s': Bitboard)
    ensures Xor(Xor(e, c), s') == Xor(Xor(Xor(Xor(e, c), s), s), s')
  {
    XorComm(Xor(e, c), s);
    XorComm(Xor(e, c), s');
    SwapTerm(s, Xor(e, c), s');
  }
}
