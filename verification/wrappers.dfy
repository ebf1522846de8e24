/** Failure-carrying result types shared by every module of the model. */
module Wrappers {

  /** An optional value: the model's stand-in for Go's nil. */
  datatype Option<+T> = None | Some(value: T) {

    /** Returns the value in Some, or `default` when None. */
    function GetOr(default: T): T {
      match this
      case Some(v) => v
      case None => default
    }
  }

  /** The outcome of an operation that can fail with an error of type E. */
  datatype Result<+R, +E> = Success(value: R) | Failure(error: E) {

    predicate IsFailure() {
      Failure?
    }

    function PropagateFailure<U>(): Result<U, E>
      requires Failure?
    {
      Failure(error)
    }

    function Extract(): R
      requires Success?
    {
      value
    }
  }
}
