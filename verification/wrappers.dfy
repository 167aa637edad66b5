/** Optional values and success/failure results, used for JavaScript's
    `undefined` fields and for handlers that alert and return early. */
module Wrappers {

  /** `None` stands for a JavaScript `undefined` or `null`. */
  datatype Option<T> = None | Some(value: T) {

    /** The wrapped value, or `default` when absent (a JavaScript "or" with a
        default, on a value that is never falsy when present). */
    function GetOr(default: T): T {
      match this
      case Some(v) => v
      case None => default
    }
  }

  /** The outcome of a handler that either commits a new value or stops with an error. */
  datatype Result<R, E> = Success(value: R) | Failure(error: E)
}
