/** Failure-carrying datatypes shared by every module of the model. */
module Wrappers {

  /** An optional value; Python's `None` is `None`. */
  datatype Option<+T> = None | Some(value: T) {
    function GetOr(default: T): T {
      match this
      case Some(v) => v
      case None => default
    }
  }

  /** Either a value or the exception the Python code would raise. */
  datatype Result<+R, +E> = Success(value: R) | Failure(error: E)
}
