/**
 * Moves packed into one integer (move_encoding.h).
 *
 * Bits 0-5 hold the start square, 6-11 the target square, 12-15 the moving
 * piece, 16-19 the promoted piece (0 when there is none), and bits 20-23 the
 * capture, double-pawn-push, en-passant and castling flags. The engine keeps
 * a move in an `int`; every encoded move is below 2^24, so it is modelled as
 * an unsigned 32-bit word.
 */
module MoveEncoding {

  type Move = bv32

  function Flag(b: bool): bv32
  {
    if b then 1 else 0
  }

  /** A value below 64, as a word. */
  function Field(n: int): bv32
    requires 0 <= n < 64
  {
    (n as bv8) as bv32
  }

  /** A word below 64, as a value. */
  function Small(y: bv32): int
    requires y < 64
  {
    (y as bv8) as int
  }

  lemma FieldRoundTrip(n: int)
    requires 0 <= n < 64
    ensures Field(n) < 64 && Small(Field(n)) == n
  {
    assert (n as bv8) as int == n;
  }

  lemma SmallRoundTrip(y: bv32)
    requires y < 64
    ensures 0 <= Small(y) < 64 && Field(Small(y)) == y
  {
  }

  /** getStartSquareIndex (move_encoding.h). */
  function GetStartSquareIndex(move: Move): (r: int)
    ensures 0 <= r < 64
  {
    Small(move & 0x3f)
  }

  /** getTargetSquareIndex (move_encoding.h). */
  function GetTargetSquareIndex(move: Move): (r: int)
    ensures 0 <= r < 64
  {
    Small((move & 0xfc0) >> 6)
  }

  /** getPiece (move_encoding.h). */
  function GetPiece(move: Move): (r: int)
    ensures 0 <= r < 16
  {
    Small((move & 0xf000) >> 12)
  }

  /** getPromotedPiece (move_encoding.h): 0 stands for "no promotion". */
  function GetPromotedPiece(move: Move): (r: int)
    ensures 0 <= r < 16
  {
    Small((move & 0xf0000) >> 16)
  }

  /** isCapture (move_encoding.h). */
  predicate IsCapture(move: Move)
  {
    move & 0x10_0000 != 0
  }

  /** isDoublePawnPush (move_encoding.h). */
  predicate IsDoublePawnPush(move: Move)
  {
    move & 0x20_0000 != 0
  }

  /** isEnPassant (move_encoding.h). */
  predicate IsEnPassant(move: Move)
  {
    move & 0x40_0000 != 0
  }

  /** isCastling (move_encoding.h). */
  predicate IsCastling(move: Move)
  {
    move & 0x80_0000 != 0
  }

  /** The fields of a decoded move, as they went into createMove. */
  predicate Decodes(move: Move, start: int, target: int, piece: int, promoted: int,
                    capture: bool, doublePush: bool, enPassant: bool, castling: bool)
  {
    GetStartSquareIndex(move) == start && GetTargetSquareIndex(move) == target
    && GetPiece(move) == piece && GetPromotedPiece(move) == promoted
    && IsCapture(move) == capture && IsDoublePawnPush(move) == doublePush
    && IsEnPassant(move) == enPassant && IsCastling(move) == castling
  }

  /** The packing itself, on words. */
  function Pack(s: bv32, t: bv32, p: bv32, q: bv32, c: bool, d: bool, e: bool, k: bool): bv32
  {
    s | (t << 6) | (p << 12) | (q << 16) | (Flag(c) << 20) | (Flag(d) << 21) | (Flag(e) << 22) | (Flag(k) << 23)
  }

  // One lemma per field: the solver decides each quickly, but not all at once.

  lemma PackStart(start: int, t: bv32, p: bv32, q: bv32, c: bool, d: bool, e: bool, k: bool)
    requires 0 <= start < 64 && t < 64 && p < 16 && q < 16
    ensures GetStartSquareIndex(Pack(Field(start), t, p, q, c, d, e, k)) == start
  {
    FieldRoundTrip(start);
    PackStartBv(Field(start), t, p, q, c, d, e, k);
  }

  lemma PackStartBv(s: bv32, t: bv32, p: bv32, q: bv32, c: bool, d: bool, e: bool, k: bool)
    requires s < 64 && t < 64 && p < 16 && q < 16
    ensures Pack(s, t, p, q, c, d, e, k) & 0x3f == s
  {
  }

  lemma PackTarget(s: bv32, target: int, p: bv32, q: bv32, c: bool, d: bool, e: bool, k: bool)
    requires s < 64 && 0 <= target < 64 && p < 16 && q < 16
    ensures GetTargetSquareIndex(Pack(s, Field(target), p, q, c, d, e, k)) == target
  {
    FieldRoundTrip(target);
    PackTargetBv(s, Field(target), p, q, c, d, e, k);
  }

  lemma PackTargetBv(s: bv32, t: bv32, p: bv32, q: bv32, c: bool, d: bool, e: bool, k: bool)
    requires s < 64 && t < 64 && p < 16 && q < 16
    ensures (Pack(s, t, p, q, c, d, e, k) & 0xfc0) >> 6 == t
  {
  }

  lemma PackPiece(s: bv32, t: bv32, piece: int, q: bv32, c: bool, d: bool, e: bool, k: bool)
    requires s < 64 && t < 64 && 0 <= piece < 16 && q < 16
    ensures GetPiece(Pack(s, t, Field(piece), q, c, d, e, k)) == piece
  {
    FieldRoundTrip(piece);
    PackPieceBv(s, t, Field(piece), q, c, d, e, k);
  }

  lemma PackPieceBv(s: bv32, t: bv32, p: bv32, q: bv32, c: bool, d: bool, e: bool, k: bool)
    requires s < 64 && t < 64 && p < 16 && q < 16
    ensures (Pack(s, t, p, q, c, d, e, k) & 0xf000) >> 12 == p
  {
  }

  lemma PackPromoted(s: bv32, t: bv32, p: bv32, promoted: int, c: bool, d: bool, e: bool, k: bool)
    requires s < 64 && t < 64 && p < 16 && 0 <= promoted < 16
    ensures GetPromotedPiece(Pack(s, t, p, Field(promoted), c, d, e, k)) == promoted
  {
    FieldRoundTrip(promoted);
    PackPromotedBv(s, t, p, Field(promoted), c, d, e, k);
  }

  lemma PackPromotedBv(s: bv32, t: bv32, p: bv32, q: bv32, c: bool, d: bool, e: bool, k: bool)
    requires s < 64 && t < 64 && p < 16 && q < 16
    ensures (Pack(s, t, p, q, c, d, e, k) & 0xf0000) >> 16 == q
  {
  }

  lemma PackCapture(s: bv32, t: bv32, p: bv32, q: bv32, c: bool, d: bool, e: bool, k: bool)
    requires s < 64 && t < 64 && p < 16 && q < 16
    ensures IsCapture(Pack(s, t, p, q, c, d, e, k)) == c
  {
  }

  lemma PackDoublePush(s: bv32, t: bv32, p: bv32, q: bv32, c: bool, d: bool, e: bool, k: bool)
    requires s < 64 && t < 64 && p < 16 && q < 16
    ensures IsDoublePawnPush(Pack(s, t, p, q, c, d, e, k)) == d
  {
  }

  lemma PackEnPassant(s: bv32, t: bv32, p: bv32, q: bv32, c: bool, d: bool, e: bool, k: bool)
    requires s < 64 && t < 64 && p < 16 && q < 16
    ensures IsEnPassant(Pack(s, t, p, q, c, d, e, k)) == e
  {
  }

  lemma PackCastling(s: bv32, t: bv32, p: bv32, q: bv32, c: bool, d: bool, e: bool, k: bool)
    requires s < 64 && t < 64 && p < 16 && q < 16
    ensures IsCastling(Pack(s, t, p, q, c, d, e, k)) == k
  {
  }

  lemma PackBound(s: bv32, t: bv32, p: bv32, q: bv32, c: bool, d: bool, e: bool, k: bool)
    requires s < 64 && t < 64 && p < 16 && q < 16
    ensures Pack(s, t, p, q, c, d, e, k) < 0x100_0000
  {
  }

  lemma PackDecodes(start: int, target: int, piece: int, promoted: int,
                    capture: bool, doublePush: bool, enPassant: bool, castling: bool)
    requires 0 <= start < 64 && 0 <= target < 64 && 0 <= piece < 16 && 0 <= promoted < 16
    ensures var m := Pack(Field(start), Field(target), Field(piece), Field(promoted), capture, doublePush, enPassant, castling);
      Decodes(m, start, target, piece, promoted, capture, doublePush, enPassant, castling) && m < 0x100_0000
  {
    var s, t, p, q := Field(start), Field(target), Field(piece), Field(promoted);
    FieldRoundTrip(start);
    FieldRoundTrip(target);
    FieldRoundTrip(piece);
    FieldRoundTrip(promoted);
    PackStart(start, t, p, q, capture, doublePush, enPassant, castling);
    PackTarget(s, target, p, q, capture, doublePush, enPassant, castling);
    PackPiece(s, t, piece, q, capture, doublePush, enPassant, castling);
    PackPromoted(s, t, p, promoted, capture, doublePush, enPassant, castling);
    PackCapture(s, t, p, q, capture, doublePush, enPassant, castling);
    PackDoublePush(s, t, p, q, capture, doublePush, enPassant, castling);
    PackEnPassant(s, t, p, q, capture, doublePush, enPassant, castling);
    PackCastling(s, t, p, q, capture, doublePush, enPassant, castling);
    PackBound(s, t, p, q, capture, doublePush, enPassant, castling);
  }

  /**
   * createMove (move_encoding.h). Every field reads back what was packed
   * (the getters invert it) and the code stays below 2^24.
   */
  function CreateMove(start: int, target: int, piece: int, promoted: int,
                      capture: bool, doublePush: bool, enPassant: bool, castling: bool): (move: Move)
    requires 0 <= start < 64 && 0 <= target < 64 && 0 <= piece < 16 && 0 <= promoted < 16
    ensures Decodes(move, start, target, piece, promoted, capture, doublePush, enPassant, castling)
    ensures move < 0x100_0000
  {
    PackDecodes(start, target, piece, promoted, capture, doublePush, enPassant, castling);
    Pack(Field(start), Field(target), Field(piece), Field(promoted), capture, doublePush, enPassant, castling)
  }

  lemma UnpackBits(m: bv32)
    requires m < 0x100_0000
    ensures m == Pack(m & 0x3f, (m & 0xfc0) >> 6, (m & 0xf000) >> 12, (m & 0xf0000) >> 16,
                      m & 0x10_0000 != 0, m & 0x20_0000 != 0, m & 0x40_0000 != 0, m & 0x80_0000 != 0)
  {
  }

  /** Every code below 2^24 is the move its own fields build: decoding loses nothing. */
  lemma DecodeRoundTrip(move: Move)
    requires move < 0x100_0000
    ensures CreateMove(GetStartSquareIndex(move), GetTargetSquareIndex(move), GetPiece(move), GetPromotedPiece(move),
                       IsCapture(move), IsDoublePawnPush(move), IsEnPassant(move), IsCastling(move)) == move
  {
    var s, t, p, q := move & 0x3f, (move & 0xfc0) >> 6, (move & 0xf000) >> 12, (move & 0xf0000) >> 16;
    UnpackFields(move);
    CreateOfFields(s, t, p, q, IsCapture(move), IsDoublePawnPush(move), IsEnPassant(move), IsCastling(move));
    UnpackBits(move);
  }

  lemma UnpackFields(move: Move)
    ensures move & 0x3f < 64 && (move & 0xfc0) >> 6 < 64 && (move & 0xf000) >> 12 < 16 && (move & 0xf0000) >> 16 < 16
  {
  }

  lemma CreateOfFields(s: bv32, t: bv32, p: bv32, q: bv32, c: bool, d: bool, e: bool, k: bool)
    requires s < 64 && t < 64 && p < 16 && q < 16
    ensures 0 <= Small(s) < 64 && 0 <= Small(t) < 64 && 0 <= Small(p) < 16 && 0 <= Small(q) < 16
    ensures CreateMove(Small(s), Small(t), Small(p), Small(q), c, d, e, k) == Pack(s, t, p, q, c, d, e, k)
  {
    SmallRoundTrip(s);
    SmallRoundTrip(t);
    SmallRoundTrip(p);
    SmallRoundTrip(q);
  }

  /** Two moves built from different fields differ: createMove is injective. */
  lemma CreateMoveInjective(s1: int, t1: int, p1: int, q1: int, c1: bool, d1: bool, e1: bool, k1: bool,
                            s2: int, t2: int, p2: int, q2: int, c2: bool, d2: bool, e2: bool, k2: bool)
    requires 0 <= s1 < 64 && 0 <= t1 < 64 && 0 <= p1 < 16 && 0 <= q1 < 16
    requires 0 <= s2 < 64 && 0 <= t2 < 64 && 0 <= p2 < 16 && 0 <= q2 < 16
    requires CreateMove(s1, t1, p1, q1, c1, d1, e1, k1) == CreateMove(s2, t2, p2, q2, c2, d2, e2, k2)
    ensures s1 == s2 && t1 == t2 && p1 == p2 && q1 == q2 && c1 == c2 && d1 == d2 && e1 == e2 && k1 == k2
  {
  }
}
