/** Failure-compatible result types shared by the modules of this model. */
module Wrappers {

  /** Rust's `Option<T>`. */
  datatype Option<+T> = None | Some(value: T)

  /** Rust's `Result<T, E>`; `anyhow::Result<T>` is `Result<T, string>` here. */
  datatype Result<+T, +E> = Ok(value: T) | Err(error: E)
}
