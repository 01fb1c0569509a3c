/** Failure-carrying datatypes shared by the model: the shapes of Rust's
    `Option<T>` and `Result<T, E>`. */
module Wrappers {

  /** `Some(value)` or `None`, as Rust's `Option<T>`. */
  datatype Option<+T> = None | Some(value: T)

  /** `Ok(value)` or `Err(error)`, as Rust's `Result<T, E>`. */
  datatype Result<+T, +E> = Ok(value: T) | Err(error: E)
}
