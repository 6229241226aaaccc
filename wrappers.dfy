/** Option and Result, for Python's None and for the exceptions the source raises. */
module Wrappers {

  /** A value or Python's None. */
  datatype Option<+T> = None | Some(value: T)

  /** The value of a step, or the exception that step raised. */
  datatype Result<+T, +E> = Success(value: T) | Failure(error: E)
}
