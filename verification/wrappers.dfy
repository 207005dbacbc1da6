/** Failure-carrying values used across the model: a field that may be absent
    from a tile, and an operation that may abort with an error. */
module Wrappers {

  /** A value that may be missing (an HTML node or attribute that a tile lacks). */
  datatype Option<+T> = None | Some(value: T) {

    /** The carried value, or `default` when there is none. */
    function GetOr(default: T): T {
      match this
      case Some(v) => v
      case None => default
    }
  }

  /** The outcome of an operation that either produces a value or raises. */
  datatype Result<+T, +E> = Success(value: T) | Failure(error: E)
}
