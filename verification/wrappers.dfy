/** Option and Result, the two sum types the model needs: `Option` for the
    nullable parent index of a node, `Result` for operations whose Rust
    counterpart panics on a bad index. */
module Wrappers {

  /** Rust's `Option<T>`: `None` or `Some(value)`. */
  datatype Option<+T> = None | Some(value: T)

  /** The outcome of an operation that either succeeds with a value or stops
      with an error (a Rust panic, in this model). */
  datatype Result<+R, +E> = Success(value: R) | Failure(error: E)
}
