/** Failure-carrying datatypes standing in for Ruby's nil and raised exceptions. */
module Wrappers {

  /** A value or Ruby's nil. */
  datatype Option<+T> = None | Some(value: T)

  /** The outcome of a step that returns nothing useful but may raise with a message. */
  datatype Outcome<+E> = Pass | Fail(error: E)

  /** The outcome of a step that returns a value or raises with a message. */
  datatype Result<+R, +E> = Success(value: R) | Failure(error: E)
}
