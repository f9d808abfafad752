/** Failure-carrying datatypes used throughout the model: `Option` for Python's
    `None`-or-value (SQL NULL, a name that does not resolve, a render that
    raises) and `Result` for operations whose source raises an exception. */
module Wrappers {

  datatype Option<+T> = None | Some(value: T) {

    /** The wrapped value, or `default` when there is none (Python's `x or default`
        for a value that may be `None`). */
    function GetOr(default: T): T
    {
      match this
      case Some(v) => v
      case None => default
    }
  }

  datatype Result<+R, +E> = Success(value: R) | Failure(error: E) {

    predicate IsFailure() {
      Failure?
    }

    function PropagateFailure<U>(): Result<U, E>
      requires Failure?
    {
      Failure(error)
    }

    function Extract(): R
      requires Success?
    {
      value
    }
  }
}
