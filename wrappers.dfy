/** Option and Result, shared by every module of the model. */
module Wrappers {

  /** A value that may be absent: Django's NULL column, a missing request header. */
  datatype Option<T> = None | Some(value: T)

  /** A computation that either produces a value or stops with an error. */
  datatype Result<T, E> = Ok(value: T) | Err(error: E)
}
