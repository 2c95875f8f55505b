/** Option and Result values shared by the model's modules. */
module Wrappers {

  /** A value that may be absent (Python `None`, SQL `NULL`, JavaScript `null`/`undefined`). */
  datatype Option<+T> = None | Some(value: T)

  /** The outcome of an operation that can raise: a value, or the error it raised. */
  datatype Result<+T, +E> = Success(value: T) | Failure(error: E)
}
