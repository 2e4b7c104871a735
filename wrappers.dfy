/** Failure-compatible wrappers used across the model. */
module Wrappers {

  /** A value that may be absent; for index pixels, None is the NaN marker. */
  datatype Option<+T> = None | Some(value: T)

  /** The value of an operation that either returns or raises. */
  datatype Result<+R, +E> = Success(value: R) | Failure(error: E)

  /** The outcome of an operation that returns nothing but may raise. */
  datatype Outcome<+E> = Pass | Fail(error: E)
}
