/** Option and Result, the two wrappers the model uses for absent values and error returns. */
module Wrappers {

  /** A value that may be absent (Rust's `Option`). */
  datatype Option<+T> = None | Some(value: T)

  /** A value or an error (a recoverable stand-in for a Rust panic). */
  datatype Result<+R, +E> = Success(value: R) | Failure(error: E)
}
