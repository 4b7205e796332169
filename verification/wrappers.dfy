/** Optional values and success/failure results, standing in for Kotlin's
    nullable types and `Result<T>`. */
module Wrappers {

  /** A Kotlin `T?`: either absent (`null`) or a present value. */
  datatype Option<+T> = None | Some(value: T) {

    /** The value, or `default` when absent (Kotlin's `?:`). */
    function GetOr(default: T): T {
      match this
      case Some(v) => v
      case None => default
    }
  }

  /** A Kotlin `Result<T>`: a value on success, a message on failure. */
  datatype Result<+T> = Success(value: T) | Failure(message: string)
}
