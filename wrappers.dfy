/** Failure-carrying result types shared by every module of the model. */
module Wrappers {

  /** A value that may be missing: a nil pointer, or the `ok` flag of a Go map read. */
  datatype Option<+T> = None | Some(value: T)

  /** The `(T, error)` pair a Go function returns, when the error decides the outcome. */
  datatype Result<+T, +E> = Ok(value: T) | Err(error: E)

  /** A Go function that returns only an `error`: nil is `Pass`. */
  datatype Outcome<+E> = Pass | Fail(error: E)
}
