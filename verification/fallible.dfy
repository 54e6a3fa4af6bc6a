/** How the model carries a value that may be missing and a step that may throw. */
module Fallible {

  /** A value that may be absent: an unset environment variable, a string conversion that throws. */
  datatype Option<T> = None | Some(value: T)

  /** A settled promise: `Ok` is fulfilled with a value, `Err` rejected with an error. */
  datatype Result<T, E> = Ok(value: T) | Err(error: E)
}
