/** Failure-compatible wrappers used throughout the model: `Option` for the
    nullable values of the DOM, `Result` for operations that may throw. */
module Wrappers {

  /** A value that may be absent, in place of `null`. */
  datatype Option<+T> = None | Some(value: T) {

    /** The wrapped value, or `default` when absent. */
    function GetOr(default: T): T {
      match this
      case Some(v) => v
      case None => default
    }
  }

  /** The outcome of an operation that either returns a value or throws an error. */
  datatype Result<+R, +E> = Ok(value: R) | Err(error: E)
}
