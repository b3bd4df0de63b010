/** Failure-carrying datatypes shared by every module of the model. */
module Wrappers {

  /** An optional value; `None` plays the part of a nil interface or a missing capability. */
  datatype Option<+T> = None | Some(value: T) {
    function GetOr(default: T): T {
      match this
      case Some(v) => v
      case None => default
    }
  }

  /** A value or the error that prevented computing it (Go's `(T, error)` pair). */
  datatype Result<+T, +E> = Success(value: T) | Failure(error: E)
}
