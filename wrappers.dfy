/** Failure-compatible wrappers used for Go's nil pointers and (value, error) pairs. */
module Wrappers {

  /** A Go pointer that may be nil: `None` is nil. */
  datatype Option<+T> = None | Some(value: T)

  /** A Go `(value, error)` pair: exactly one of the two is present. */
  datatype Result<+T, +E> = Ok(value: T) | Err(error: E)
}
