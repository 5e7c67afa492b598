/** Option and Outcome values used across the model. */
module Wrappers {

  datatype Option<+T> = None | Some(value: T)

  datatype Result<+R, +E> = Success(value: R) | Failure(error: E)

  /** The value of a Go `error` return: nil (Pass) or an error value (Fail). */
  datatype Outcome<+E> = Pass | Fail(error: E)
}
