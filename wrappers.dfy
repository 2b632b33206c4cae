/** Option and Result, the two failure-carrying values used throughout the model. */
module Wrappers {

  /** A value that may be absent: JavaScript's `null`/`undefined` in the source. */
  datatype Option<+T> = None | Some(value: T)

  /** The outcome of an operation that can throw. */
  datatype Result<+T, +E> = Success(value: T) | Failure(error: E)
}
