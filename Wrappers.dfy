/** Option and Result values standing in for the source's nulls and exceptions. */
module Wrappers {

  datatype Option<+T> = None | Some(value: T) {
    /** The value, or a default in place of null (the `??` operator). */
    function GetOr(default: T): T {
      match this
      case Some(v) => v
      case None => default
    }
  }

  /** A computation that either returns a value or throws the error it carries. */
  datatype Result<+T, +E> = Success(value: T) | Failure(error: E)
}
