/** Option and Result, shared by the two components. */
module Wrappers {

  /** An optional value: `None` stands for Rust's `None`, a failed decode or a failed compile. */
  datatype Option<+T> = None | Some(value: T)

  /** Rust's `Result<T, E>`: a value or an error. */
  datatype Result<+T, +E> = Success(value: T) | Failure(error: E)
}
