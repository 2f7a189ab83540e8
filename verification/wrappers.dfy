/** Option and result types shared by the other modules. */
module Wrappers {

  datatype Option<+T> = None | Some(value: T)

  /** The value an operation returns, or the error that makes the program exit. */
  datatype Result<+T, +E> = Success(value: T) | Failure(error: E)
}
