/** Failure-compatible results for the operations of the bandit framework.
    Every exception the modelled code can raise is one constructor of `Error`. */
module Outcome {

  /** The failure conditions of the core, named by what goes wrong. */
  datatype Error =
    | IndexOutOfRange          // an arm index past the end of a per-arm list (IndexError)
    | EmptyMaximum             // `max` taken over an empty list (ValueError)
    | NotCallable              // a bandit's default `reward`/`rewards`, which call `NotImplemented()` (TypeError)
    | NotImplemented           // an environment's default `reward`/`rewards` (NotImplementedError)
    | CombinationNotSupported  // a list of arms used as a single list index (TypeError)
    | ArmCountMismatch         // bandit and environment disagree on the number of arms (AssertionError)
    | RegretBeforeReward       // adversarial regret asked before any reward was resolved (AssertionError)
    | Exhausted                // the environment no longer accepts inputs
    | UnpackMismatch           // a list of the wrong length unpacked into a pair (ValueError)

  datatype Option<+T> = None | Some(value: T)

  datatype Result<+T> = Success(value: T) | Failure(error: Error) {

    predicate IsFailure() {
      Failure?
    }

    function PropagateFailure<U>(): Result<U>
      requires Failure?
    {
      Failure(error)
    }

    function Extract(): T
      requires Success?
    {
      value
    }
  }
}
