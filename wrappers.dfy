/** Result types standing for Python's exceptions. */
module Wrappers {

  datatype Option<+T> = None | Some(value: T)

  datatype Result<+T, +E> = Ok(value: T) | Err(error: E)

  /** A step that either passes or raises. */
  datatype Outcome<+E> = Pass | Fail(error: E)
}
