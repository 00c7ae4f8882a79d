/** Success/failure values used for every fallible operation of the model. */
module Wrappers {

  /** A Rust `Result`: either a value or an error. */
  datatype Result<+T, +E> = Ok(value: T) | Err(error: E)

  /** A Rust `Option`. */
  datatype Option<+T> = None | Some(value: T)
}
