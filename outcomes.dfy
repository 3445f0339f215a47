/** Optional values and results: the exceptions of the interpreter become `Failure` values. */
module Outcomes {

  datatype Option<+T> = None | Some(value: T)

  /** A computation that either succeeds with a value or fails with an error message. */
  datatype Result<+T, +E> = Success(value: T) | Failure(error: E) {

    predicate IsFailure() {
      Failure?
    }

    function PropagateFailure<U>(): Result<U, E>
      requires Failure?
    {
      Failure(error)
    }

    function Extract(): T
      requires Success?
    {
      value
    }
  }
}
