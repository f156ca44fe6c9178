/** Option and Result values used across the model in place of JavaScript's
    `null`/`undefined` and thrown exceptions. */
module Wrappers {

  datatype Option<+T> = None | Some(value: T) {
    /** The value, or `default` when there is none. */
    function GetOr(default: T): T {
      match this
      case Some(v) => v
      case None => default
    }
  }

  /** A computation that either produces a value or rejects (throws). */
  datatype Result<+T, +E> = Ok(value: T) | Err(error: E)
}
