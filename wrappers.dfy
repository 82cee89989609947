/** Option and Result values for the "absent" and "error" outcomes of the matcher. */
module Wrappers {

  /** A value that may be absent (Python's `None`). */
  datatype Option<+T> = None | Some(value: T)

  /** The outcome of an operation that can raise (Python exceptions). */
  datatype Result<+R, +E> = Success(value: R) | Failure(error: E)
}
