/** Optional values and results with an error, shared by every module of the model. */
module Wrappers {

  /** A value that may be missing (Python's `None`, pandas' `NaN`). */
  datatype Option<+T> = None | Some(value: T)

  /** The outcome of an operation that may raise. */
  datatype Result<+T, +E> = Ok(value: T) | Err(error: E)
}
