/** Option and Result: Java's null and its exceptions, as values. */
module Wrappers {

  /** A value that may be absent (a Java reference that may be null). */
  datatype Option<+T> = None | Some(value: T) {
    function GetOr(default: T): T {
      match this
      case Some(v) => v
      case None => default
    }
  }

  /** The normal result of an operation, or the exception it raised. */
  datatype Result<+T, +E> = Ok(value: T) | Err(error: E)
}
