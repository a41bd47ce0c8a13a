/** Option and Result types shared by the model. */
module Wrappers {

  /** A value that may be missing (Python's `Optional` / `None`). */
  datatype Option<+T> = None | Some(value: T)

  /** The outcome of an operation that can raise: the value, or the error it raises. */
  datatype Result<+T, +E> = Ok(value: T) | Err(error: E)
}
