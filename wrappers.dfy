/** Failure-carrying wrappers shared by the whole model. */
module Wrappers {

  /** An artifact that may or may not have been written to the store yet. */
  datatype Option<+T> = None | Some(value: T)

  /** The value of a computation, or the exception it raises. */
  datatype Result<+T, +E> = Success(value: T) | Failure(error: E)

  /** The outcome of a stage that only changes state: it returns, or it raises. */
  datatype Outcome<+E> = Pass | Fail(error: E)
}
