/** Option and Result, the two failure-carrying wrappers the model uses. */
module Wrappers {

  datatype Option<+T> = None | Some(value: T)

  /** The outcome of an operation that may throw: its value, or the error thrown. */
  datatype Result<+R, +E> = Success(value: R) | Failure(error: E)
}
