/** Failure-carrying values used across the model. */
module Wrappers {

  /** A value that may be absent: a missing JSON key, a string that does not parse. */
  datatype Option<+T> = None | Some(value: T)

  /** A computation that either succeeds with a value or fails with an error. */
  datatype Result<+R, +E> = Success(value: R) | Failure(error: E)
}
