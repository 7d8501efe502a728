/** Failure-carrying values used across the model. */
module Wrappers {

  /** A value that may be absent (the source's `undefined`). */
  datatype Option<+T> = None | Some(value: T)

  /** A computation that either succeeds with a value or stops with an error. */
  datatype Result<+T, +E> = Ok(value: T) | Err(error: E)
}
