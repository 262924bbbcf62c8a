/** An optional value (a request field that may be missing, a column that
    may be `NULL`) and the outcome of a storage statement: its value, or
    the error its callback receives. */
module Wrappers {

  datatype Option<+T> = None | Some(value: T) {

    /** `x || default` for a field whose only falsy form is absence. */
    function GetOr(default: T): T {
      match this
      case Some(v) => v
      case None => default
    }
  }

  datatype Result<+R, +E> = Success(value: R) | Failure(error: E)
}
