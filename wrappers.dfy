/** Option and Result, for absent JavaScript values and thrown errors. */
module Wrappers {

  datatype Option<+T> = None | Some(value: T)

  /** The outcome of a call that either returns a value or throws an Error with a message. */
  datatype Result<+R, +E> = Success(value: R) | Failure(error: E)
}
