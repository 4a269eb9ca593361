/** Optional values and success/failure results, standing in for Java's `null` and exceptions. */
module Wrappers {

  /** A value that may be absent (a Java reference that may be `null`). */
  datatype Option<+T> = None | Some(value: T)

  /** The outcome of an operation that either produces a value or fails with an error. */
  datatype Result<+T, +E> = Success(value: T) | Failure(error: E)
}
