/** Option and Result values shared by every module of the model. */
module Wrappers {

  /** A value that may be absent (null / undefined / None in the source). */
  datatype Option<+T> = None | Some(value: T)

  /** The outcome of an operation that either succeeds or throws / returns an error. */
  datatype Result<+T, +E> = Ok(value: T) | Err(error: E)
}
