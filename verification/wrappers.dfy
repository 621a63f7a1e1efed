/** Option and Result, used for nullable values and for the error paths of the model. */
module Wrappers {

  /** A value that may be absent (a C# or JavaScript `null`/`undefined`). */
  datatype Option<+T> = None | Some(value: T) {

    /** The value, or `default` when absent. */
    function GetOr(default: T): T {
      match this
      case Some(v) => v
      case None => default
    }
  }

  /** The outcome of an operation that may throw. */
  datatype Result<+R, +E> = Ok(value: R) | Err(error: E)
}
