/** Failure-carrying datatypes used across the model. */
module Wrappers {

  /** A value that may be absent: a nullable column, a lookup that found nothing. */
  datatype Option<+T> = None | Some(value: T)

  /** The outcome of a validator: it passes, or it fails with an error. */
  datatype Outcome<+E> = Pass | Fail(error: E)

  /** The outcome of an operation that produces a value when it succeeds. */
  datatype Result<+R, +E> = Success(value: R) | Failure(error: E)
}
