/** Absence and failure values standing in for Java's null and checked exceptions. */
module Wrappers {

  /** Some value, or None where the Java code has null. */
  datatype Option<+T> = None | Some(value: T)

  /** A value, or the error that the Java code throws instead of returning it. */
  datatype Result<+T, +E> = Success(value: T) | Failure(error: E)
}
