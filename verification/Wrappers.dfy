/** The option and result types every module of the model shares. */
module Wrappers {

  datatype Option<+T> = None | Some(value: T)

  /** The value-and-error pair of a Go call; `Failure` is the error return. */
  datatype Result<+T, +E> = Success(value: T) | Failure(error: E)
}
