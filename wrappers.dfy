/** Optional values and error returns used across the model. */
module Wrappers {

  /** A value that may be absent (Python's None, a missing dict key, a NaN cell). */
  datatype Option<+T> = None | Some(value: T) {

    /** The value, or `default` when absent. */
    function GetOr(default: T): T
    {
      match this
      case Some(v) => v
      case None => default
    }
  }

  /** A computation that either produced a value or raised an error. */
  datatype Result<+T, +E> = Ok(value: T) | Err(error: E)
}
