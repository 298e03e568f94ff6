/** Optional values and results with an error, shared by all modules of the model. */
module Wrappers {

  /** A value that may be absent: JavaScript's `null`/`undefined` in the source. */
  datatype Option<+T> = None | Some(value: T) {
    function GetOr(default: T): T {
      match this
      case Some(v) => v
      case None => default
    }
  }

  /** The outcome of an operation that throws in the source. */
  datatype Result<+T, +E> = Ok(value: T) | Err(error: E)
}
