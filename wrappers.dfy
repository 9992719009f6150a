/** Option, Result and Outcome types used across the model. */
module Wrappers {

  /** A value that may be absent; `None` stands for pandas' NaN where a number is expected. */
  datatype Option<+T> = None | Some(value: T)

  /** The value of a computation that may raise. */
  datatype Result<+T, +E> = Success(value: T) | Failure(error: E)

  /** The outcome of a procedure that may raise and returns nothing. */
  datatype Outcome<+E> = Pass | Fail(error: E)
}
