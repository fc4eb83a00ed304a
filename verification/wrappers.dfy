/** Failure-carrying wrappers shared by the other modules. */
module Wrappers {

  /** A value that may be absent (JavaScript `undefined` or `null`). */
  datatype Option<+T> = None | Some(value: T)

  /** The outcome of an operation that may throw or reject. */
  datatype Result<+T, +E> = Success(value: T) | Failure(error: E)
}
