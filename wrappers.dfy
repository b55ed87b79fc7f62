/** Optional and fallible values shared by every module of the model. */
module Wrappers {

  /** A value that may be absent (Python's None). */
  datatype Option<+T> = None | Some(value: T) {
    function GetOr(default: T): T {
      match this
      case Some(v) => v
      case None => default
    }
  }

  /** The outcome of an operation that may fail with a message. */
  datatype Result<+T> = Ok(value: T) | Err(error: string)
}
