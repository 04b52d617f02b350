/** Optional values and success-or-failure results, used for nullable table
    cells and for the reader's error kinds. */
module Wrappers {

  /** A possibly-missing value: a null cell of a column. */
  datatype Option<+T> = None | Some(value: T) {

    /** The carried value, or `default` when the cell is missing. */
    function GetOr(default: T): T {
      match this
      case Some(v) => v
      case None => default
    }
  }

  /** The outcome of an operation that either produces a value or fails
      with an error. */
  datatype Result<+R, +E> = Success(value: R) | Failure(error: E)
}
