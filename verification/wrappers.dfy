/** Option, Result and Outcome, for Go's `(value, error)` and `error` returns. */
module Wrappers {

  datatype Option<+T> = None | Some(value: T)

  /** A Go `(value, error)` pair where exactly one half is meaningful. */
  datatype Result<+T, +E> = Success(value: T) | Failure(error: E)

  /** A Go function that returns only an `error` (nil or not). */
  datatype Outcome<+E> = Pass | Fail(error: E)
}
