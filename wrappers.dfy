/** Optional values and success/failure outcomes, shared by the other modules. */
module Wrappers {

  /** A value that may be absent: an optional field, a missing JSON property, a search that found nothing. */
  datatype Option<+T> = None | Some(value: T) {

    /** The value, or `default` when absent (JavaScript's `x || default` on a truthy-or-missing value). */
    function GetOr(default: T): T {
      match this
      case Some(v) => v
      case None => default
    }
  }

  /** The outcome of a step that may throw: the value it produced, or the message of the error it raised. */
  datatype Result<+T, +E> = Success(value: T) | Failure(error: E)
}
