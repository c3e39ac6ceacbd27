/** Option and Result: the model's stand-ins for Java's null and thrown exceptions. */
module Wrappers {

  /** A value that may be absent (Java's nullable references). */
  datatype Option<+T> = None | Some(value: T)

  /** The outcome of an operation that may throw: its value, or the error it throws. */
  datatype Result<+R, +E> = Success(value: R) | Failure(error: E)
}
