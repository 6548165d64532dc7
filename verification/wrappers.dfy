/** Optional values and results with an error, shared by every module of the model. */
module Wrappers {

  /** A value that may be absent: Python's `Optional[T]` / SQL's nullable column. */
  datatype Option<+T> = None | Some(value: T) {
    function GetOr(default: T): T {
      match this
      case Some(v) => v
      case None => default
    }
  }

  /** The outcome of an operation that either produces a value or fails with an error. */
  datatype Result<+T, +E> = Ok(value: T) | Err(error: E)
}
