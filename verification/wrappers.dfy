/** Failure-carrying datatypes shared by the whole model. */
module Wrappers {

  /** A value that may be absent, such as an environment variable that is not set. */
  datatype Option<+T> = None | Some(value: T)

  /** Either a computed value or the error that the source raises instead. */
  datatype Result<+T, +E> = Success(value: T) | Failure(error: E)

  /** Success, or a failure carrying an error value, with nothing computed. */
  datatype Outcome<+E> = Pass | Fail(error: E)
}
