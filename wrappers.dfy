/** Option and Result, used for Java's nullable references and for exceptions. */
module Wrappers {

  /** A Java reference that may be null: None is null. */
  datatype Option<+T> = None | Some(value: T)

  /** The outcome of a service call that may throw: Failure carries the exception. */
  datatype Result<+T, +E> = Success(value: T) | Failure(error: E)
}
