/** Failure-compatible result types used throughout the model. */
module Wrappers {

  /** A value that may be absent. */
  datatype Option<+T> = None | Some(value: T)

  /** Either a computed value or the exception that stopped the computation. */
  datatype Result<+R, +E> = Success(value: R) | Failure(error: E)

  /** The outcome of a procedure that returns nothing on success. */
  datatype Outcome<+E> = Pass | Fail(error: E)
}
