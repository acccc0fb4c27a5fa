/** Failure-compatible wrappers used throughout the session engine. */
module Wrappers {

  /** An optional value: Python's `Optional[...]` / `None`. */
  datatype Option<+T> = None | Some(value: T)

  /** The outcome of an operation that can raise: either a value or the error it raised. */
  datatype Result<+R, +E> = Success(value: R) | Failure(error: E)
}
