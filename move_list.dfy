/**
 * The fixed-capacity move buffer (MoveList.h, MoveList.cpp): an array of
 * 256 encoded moves of which the first `count` are in use.
 */
module MoveLists {
  import opened MoveEncoding

  /** Size of the `moves` array. */
  const CAPACITY := 256

  class MoveList {
    /** The buffer; callers that obtain it through `GetMoves` may reorder it in place. */
    const moves: array<Move>
    /** Number of moves appended so far. */
    var count: int

    ghost predicate Valid()
      reads this
    {
      moves.Length == CAPACITY && 0 <= count <= CAPACITY
    }

    /** The moves appended so far, in order. */
    ghost function Contents(): (r: seq<Move>)
      requires Valid()
      reads this, moves
      ensures |r| == count
    {
      moves[..count]
    }

    /** A fresh list is empty. */
    constructor()
      ensures Valid() && fresh(moves)
      ensures Contents() == []
    {
      moves := new Move[CAPACITY];
      count := 0;
    }

    /**
     * appendMove: encodes the move into slot `count` and bumps `count`.
     * There is no capacity check in the engine, so a full list is excluded
     * by the precondition.
     */
    method AppendMove(start: int, target: int, piece: int, promoted: int,
                      capture: bool, doublePush: bool, enPassant: bool, castling: bool)
      requires Valid() && count < CAPACITY
      requires 0 <= start < 64 && 0 <= target < 64 && 0 <= piece < 16 && 0 <= promoted < 16
      modifies this, moves
      ensures Valid() && count == old(count) + 1
      ensures Contents() == old(Contents()) + [CreateMove(start, target, piece, promoted, capture, doublePush, enPassant, castling)]
      ensures Decodes(Contents()[count - 1], start, target, piece, promoted, capture, doublePush, enPassant, castling)
    {
      moves[count] := CreateMove(start, target, piece, promoted, capture, doublePush, enPassant, castling);
      count := count + 1;
    }

    /** getMoves: the underlying buffer itself, not a copy. */
    method GetMoves() returns (r: array<Move>)
      requires Valid()
      ensures r == moves && r.Length == CAPACITY
    {
      r := moves;
    }

    /** getCount: the number of moves in the list; reads only. */
    method GetCount() returns (r: int)
      requires Valid()
      ensures r == |Contents()|
      ensures 0 <= r <= CAPACITY
    {
      r := count;
    }
  }
}
