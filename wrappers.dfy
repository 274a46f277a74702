/** Nullable values and fallible results, used for Java's null and for thrown exceptions. */
module Wrappers {

  /** A Java reference that may be null. */
  datatype Option<+T> = None | Some(value: T) {
    function GetOr(default: T): T {
      match this
      case Some(v) => v
      case None => default
    }
  }

  /** The value of an operation that may throw. */
  datatype Result<+T, +E> = Success(value: T) | Failure(error: E)
}
