/** The optional value and the success-or-error result used throughout the model. */
module Wrappers {

  /** A value that may be absent (Go's nil pointer or missing map entry). */
  datatype Option<+T> = None | Some(value: T)

  /** A value or an error (Go's `(T, error)` pair with exactly one side meaningful). */
  datatype Result<+T, +E> = Success(value: T) | Failure(error: E)
}
