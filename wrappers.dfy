/** Option and Result, the value-level stand-ins for Python's None and for raised exceptions. */
module Wrappers {

  datatype Option<+T> = None | Some(value: T) {
    function GetOr(default: T): T {
      match this
      case Some(v) => v
      case None => default
    }
  }

  /** The outcome of a call that may raise: its value, or the message of the exception. */
  datatype Result<+T, +E> = Success(value: T) | Failure(error: E)
}
