/** Optional values and success/failure results shared by every module. */
module Wrappers {

  /** A value that may be absent: JavaScript's `null` / `undefined`. */
  datatype Option<+T> = None | Some(value: T) {
    function GetOr(default: T): T {
      match this
      case Some(v) => v
      case None => default
    }
  }

  /** The outcome of an operation that returns a value or throws an error message. */
  datatype Result<+T> = Success(value: T) | Failure(error: string)
}
