/** Failure-carrying values shared by every module of the model. */
module Wrappers {

  /** A value that may be absent: a missing dictionary key, a cell past the end of a row,
      or JavaScript's NaN where a number was expected. */
  datatype Option<+T> = None | Some(value: T) {
    function GetOr(default: T): T {
      match this
      case Some(v) => v
      case None => default
    }
  }

  /** The outcome of an operation that the source can abandon by raising an exception. */
  datatype Result<+T, +E> = Ok(value: T) | Err(error: E)
}
