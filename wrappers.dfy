/** Option and Result, the two failure-carrying shapes the model needs. */
module Wrappers {

  /** An optional value, like Rust's `Option<T>`. */
  datatype Option<+T> = None | Some(value: T)

  /** A value or an error, like Rust's `Result<T, E>`. */
  datatype Result<+T, +E> = Ok(value: T) | Err(error: E)
}
