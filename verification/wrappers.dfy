/** Option and Result: the model's stand-ins for Kotlin's nullable types and
    for calls that may throw. */
module Wrappers {

  /** A Kotlin `T?`: `None` is `null`. */
  datatype Option<+T> = None | Some(value: T) {

    /** Kotlin's elvis operator `this ?: default`. */
    function GetOr(default: T): T {
      match this
      case Some(v) => v
      case None => default
    }
  }

  /** The outcome of an operation that may throw: `Failure` carries the exception message. */
  datatype Result<+R, +E> = Success(value: R) | Failure(error: E)
}
