/** Nullable references and thrown exceptions, as values: a Java reference that
    may be null is an Option, a computation that may throw yields a Result, and a
    check that returns nothing but may throw yields an Outcome. */
module Wrappers {

  datatype Option<+T> = None | Some(value: T) {

    /** The value, or `default` for null. */
    function GetOr(default: T): T {
      match this
      case Some(v) => v
      case None => default
    }
  }

  datatype Result<+R, +E> = Success(value: R) | Failure(error: E)

  datatype Outcome<+E> = Pass | Fail(error: E)
}
