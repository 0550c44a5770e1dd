/** Failure-compatible helper datatypes shared by the ensemble model. */
module Wrappers {

  /** An optional value, standing in for Python's `None`. */
  datatype Option<+T> = None | Some(value: T)

  /** The outcome of an operation that can raise. */
  datatype Result<+T, +E> = Success(value: T) | Failure(error: E)
}
