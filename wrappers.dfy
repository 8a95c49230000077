/** Option and Result: absence of a value, and an operation that may fail. */
module Wrappers {

  /** A value that may be absent (a Go nil pointer, or a zero value standing for "unset"). */
  datatype Option<+T> = None | Some(value: T)

  /** The outcome of an operation that may fail with an error value. */
  datatype Result<+R, +E> = Success(value: R) | Failure(error: E)
}
