/** Optional values and success/failure results, standing in for Kotlin's
    nullable types and thrown exceptions. */
module Wrappers {

  /** A Kotlin `T?`: either no value (`null`) or a value. */
  datatype Option<+T> = None | Some(value: T) {

    /** The value, or `default` when there is none (Kotlin's `?:`). */
    function GetOr(default: T): T
    {
      match this
      case Some(v) => v
      case None => default
    }
  }

  /** The outcome of a call that either returns a value or throws. */
  datatype Result<+T, +E> = Success(value: T) | Failure(error: E)
}
