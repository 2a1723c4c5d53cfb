/** Option and Result, the model's stand-ins for C#'s nullable values and for
    the controller's early error returns. */
module Wrappers {

  /** A value that may be absent: C#'s `null`, `int?` and `DateTime?`. */
  datatype Option<+T> = None | Some(value: T) {

    /** C#'s `x ?? fallback`. */
    function GetOr(fallback: T): T {
      match this
      case Some(v) => v
      case None => fallback
    }
  }

  /** Either a value or an error. */
  datatype Result<+T, +E> = Success(value: T) | Failure(error: E)
}
