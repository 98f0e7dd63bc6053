/** Failure-carrying values used throughout the model. */
module Wrappers {

  /** The result of a lookup or a partial computation. */
  datatype Option<+T> = None | Some(value: T)

  /** Rust's `Result<T, E>`; `Result<T, ()>` is the source's bare `Err(())`. */
  datatype Result<+T, +E> = Ok(value: T) | Err(error: E)
}
