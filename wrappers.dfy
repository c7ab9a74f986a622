/** Option and Result, the two outcome shapes used across the model. */
module Wrappers {

  /** A value that may be absent (Java's null, or an empty Optional). */
  datatype Option<T> = None | Some(value: T)

  /** A value, or the reason it could not be computed (an exception in Java). */
  datatype Result<T, E> = Ok(value: T) | Err(error: E)
}
