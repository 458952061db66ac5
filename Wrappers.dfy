// Failure-carrying wrappers shared by every module of the model.
module Wrappers {

  /** A value that may be absent: Python's None, or a lookup that raised. */
  datatype Option<+T> = None | Some(value: T) {
    function GetOr(default: T): T {
      match this
      case Some(v) => v
      case None => default
    }
  }

  /** The outcome of an operation that either returns or raises `error`. */
  datatype Result<+T, +E> = Ok(value: T) | Err(error: E)
}
