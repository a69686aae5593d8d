/** The optional value used where the source has `None`, and the outcome of
    an operation that either succeeds or raises. */
module Wrappers {
  datatype Option<T> = None | Some(value: T)

  datatype Result<T, E> = Ok(value: T) | Err(error: E)
}
