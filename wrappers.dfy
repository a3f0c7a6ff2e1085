/** Option and Result values used throughout the model. */
module Wrappers {

  /** A value that may be absent: a missing or `null` JSON field, or a regular-expression match that failed. */
  datatype Option<+T> = None | Some(value: T)

  /** The outcome of a step that either produces a value or fails with an error. */
  datatype Result<+T, +E> = Ok(value: T) | Err(error: E)
}
