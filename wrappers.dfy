/** Option and Result, the shapes used for values that may be missing and for
    operations that may raise. */
module Wrappers {

  datatype Option<+T> = None | Some(value: T) {
    /** The value, or `default` when there is none (Python's `dict.get(k, default)`). */
    function GetOr(default: T): T {
      match this
      case Some(v) => v
      case None => default
    }
  }

  /** A result or the message of the exception that was raised instead. */
  datatype Result<+T> = Success(value: T) | Failure(error: string)
}
