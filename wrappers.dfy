/** Option and Result, used for nullable values and for exceptions. */
module Wrappers {

  /** A value that may be absent (C#'s null). */
  datatype Option<+T> = None | Some(value: T)

  /** Either a value or the exception that was raised instead. */
  datatype Result<+R, +E> = Success(value: R) | Failure(error: E)
}
