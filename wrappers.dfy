/** The optional value used for a byte array that may be `null`, and the result of a call that may throw. */
module Wrappers {

  datatype Option<T> = None | Some(value: T)

  datatype Result<T, E> = Ok(value: T) | Err(error: E)
}
