/** Option, Result and Outcome values for absent nodes and thrown errors. */
module Wrappers {

  datatype Option<+T> = None | Some(value: T)

  datatype Result<+R, +E> = Success(value: R) | Failure(error: E)

  /** The result of an operation that either returns normally or throws. */
  datatype Outcome<+E> = Pass | Fail(error: E)
}
