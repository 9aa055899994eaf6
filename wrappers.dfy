/** Failure-compatible result type standing in for the engine's exceptions. */
module Wrappers {

  /** The exceptions the engine throws; each is a programmer error, never a game outcome. */
  datatype EngineError =
    | LSBOfEmptyBitboard          // lowest set bit asked of an empty bitboard
    | HashKeysNotInitialized      // Zobrist keys used before they were generated
    | CannotFindMagicNumber       // the magic search exhausted its candidate budget
    | MagicNumberNotInitialized   // sliding tables requested before the magic numbers exist

  datatype Result<+T> = Success(value: T) | Failure(error: EngineError) {

    predicate IsFailure() {
      Failure?
    }

    function PropagateFailure<U>(): Result<U>
      requires Failure?
    {
      Failure(error)
    }

    function Extract(): T
      requires Success?
    {
      value
    }
  }
}
