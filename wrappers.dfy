/** Failure-carrying values used where the source throws or returns null. */
module Wrappers {

  /** A value that may be absent (the source's `null`). */
  datatype Option<+T> = None | Some(value: T)

  /** Either a value or the error that the source raises instead of it. */
  datatype Result<+T, +E> = Ok(value: T) | Err(error: E)
}
