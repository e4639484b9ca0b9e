/** Optional values (Python's `None`) and results of operations that may raise. */
module Wrappers {

  datatype Option<+T> = None | Some(value: T)

  /** The outcome of an analysis step: a value, or the error the source raises. */
  datatype Result<+R, +E> = Success(value: R) | Failure(error: E) {

    predicate IsFailure() {
      Failure?
    }

    function PropagateFailure<U>(): Result<U, E>
      requires Failure?
    {
      Failure(error)
    }

    function Extract(): R
      requires Success?
    {
      value
    }
  }
}
