/** Failure-carrying values used throughout the model: an optional value
    (a JavaScript `undefined` or a missing key) and a success-or-error result
    (a thrown exception caught by the caller). */
module Wrappers {

  datatype Option<+T> = None | Some(value: T) {
    /** The value, or `default` when absent (JavaScript's `x ?? default`). */
    function GetOr(default: T): T {
      match this
      case Some(v) => v
      case None => default
    }
  }

  datatype Result<+T, +E> = Ok(value: T) | Err(error: E)
}
