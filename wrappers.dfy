/** Failure-compatible result types shared by the parsers and the scoring engine. */
module Wrappers {

  /** A value that may be missing: the result of a parse that can fail. */
  datatype Option<+T> = None | Some(value: T)

  /** A value or the reason it could not be computed. */
  datatype Result<+T, +E> = Ok(value: T) | Err(error: E)

  /** The outcome of an operation that returns only an error, like a Go `error` that is nil on success. */
  datatype Outcome<+E> = Pass | Fail(error: E)
}
