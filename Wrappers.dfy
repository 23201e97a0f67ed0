/** Option and Result values shared by the other modules. */
module Wrappers {

  /** A value that may be absent (Python's `None`, or pandas' `NaN` for a number). */
  datatype Option<+T> = None | Some(value: T)

  /** The outcome of an operation that raises an exception in the source. */
  datatype Result<+T, +E> = Success(value: T) | Failure(error: E)
}
