/** The two failure-compatible wrappers the model uses for absent values and error paths. */
module Wrappers {

  /** A value that may be missing: Python's `None` versus a present object. */
  datatype Option<+T> = None | Some(value: T)

  /** The outcome of an operation that either produces a value or fails with an error. */
  datatype Result<+R, +E> = Success(value: R) | Failure(error: E)
}
