/** The `Option` and `Result` datatypes shared by the other modules. */
module Wrappers {

  /** A value that may be missing; Python's `None` is `None` here. */
  datatype Option<+T> = None | Some(value: T)

  /** The outcome of a step that can raise: `Fail` carries the exception that was raised. */
  datatype Result<+T, +E> = Ok(value: T) | Fail(error: E)
}
