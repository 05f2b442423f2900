/** Failure-compatible wrappers and the error kinds the Farkle engine raises. */
module Wrappers {

  /** An optional value, used for the game's `winner` (None while nobody has won). */
  datatype Option<+T> = None | Some(value: T)

  /** Either a computed value or the error a Python call would have raised. */
  datatype Result<+T> = Success(value: T) | Failure(error: Error) {

    predicate IsFailure() {
      Failure?
    }

    function PropagateFailure<U>(): Result<U>
      requires Failure?
    {
      Failure(error)
    }

    function Extract(): T
      requires Success?
    {
      value
    }
  }

  /** The exceptions of the engine, one constructor per distinct cause. */
  datatype Error =
    | TurnEnded          // RuntimeError: the turn has already ended
    | NotRolled          // RuntimeError: a pattern is selected before the dice are rolled
    | AlreadyRolled      // RuntimeError: rolling twice, or ending the turn after rolling
    | TooManyDice        // ValueError: the pattern is longer than the roll
    | NotContained       // ValueError: the roll does not contain the pattern
    | NotScoring         // ValueError: an action names a pattern that scores nothing
    | NegativeDiceCount  // ValueError from the random generator: negative sample size
    | NoDieFaces         // ValueError from the random generator: empty range of faces
    | IndexOutOfRange    // IndexError: a list index outside the list
    | ZeroPlayers        // ZeroDivisionError: modulo by a player count of zero
    | EmptyMax           // ValueError: max() of an empty sequence
}
