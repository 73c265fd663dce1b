/** Failure-compatible wrappers shared by the rest of the model. */
module Wrappers {

  /** A value that may be absent (Python's `None` versus a present value). */
  datatype Option<+T> = None | Some(value: T)

  /** Either a successful value or the error that a Python exception would carry. */
  datatype Result<+R, +E> = Success(value: R) | Failure(error: E)
}
