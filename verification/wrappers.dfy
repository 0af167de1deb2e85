/** Failure-carrying values used in place of the source's `None` and its raised exceptions. */
module Wrappers {

  /** An optional value: a seat holds `Some(passenger)` or `None`. */
  datatype Option<+T> = None | Some(value: T)

  /** Either a value or the error an operation raised. */
  datatype Result<+T, +E> = Ok(value: T) | Err(error: E)
}
