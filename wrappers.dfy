/** Option and Result values used for the source's "missing" and "raised" cases. */
module Wrappers {

  datatype Option<+T> = None | Some(value: T)

  /** The outcome of an operation that can raise: a value, or the error it raised. */
  datatype Result<+T, +E> = Ok(value: T) | Err(error: E)

  /** The outcome of an operation that returns nothing but can raise. */
  datatype Outcome<+E> = Pass | Fail(error: E)
}
