/** Failure-carrying datatypes used across the quiz model. */
module Wrappers {

  /** An optional value: a form field that may be absent, a nullable column. */
  datatype Option<+T> = None | Some(value: T)

  /** The outcome of an operation that either yields a value or fails with an error. */
  datatype Result<+R, +E> = Success(value: R) | Failure(error: E)
}
