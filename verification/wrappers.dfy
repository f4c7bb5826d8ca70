/** Option and Result values used where the application meets a missing value or a failure. */
module Wrappers {

  /** A value that may be absent: Python's `None`, a SQL `NULL`, a missing request argument. */
  datatype Option<+T> = None | Some(value: T) {

    /** The carried value, or `default` when there is none. */
    function GetOr(default: T): (r: T)
      ensures Some? ==> r == value
      ensures None? ==> r == default
    {
      match this
      case Some(v) => v
      case None => default
    }
  }

  /** The outcome of an operation that can raise: a value, or the error message it reports. */
  datatype Result<+R> = Ok(value: R) | Err(message: string)
}
