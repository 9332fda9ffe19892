/** Failure-carrying values used across the model: a Python call that may raise
    is modelled as returning one of these instead of raising. */
module Wrappers {

  datatype Option<+T> = None | Some(value: T) {
    function GetOr(default: T): T {
      match this
      case Some(v) => v
      case None => default
    }
  }

  /** The result of a call that returns a value or raises. */
  datatype Result<+R, +E> = Success(value: R) | Failure(error: E)

  /** The result of a call that returns nothing or raises. */
  datatype Outcome<+E> = Pass | Fail(error: E)
}
