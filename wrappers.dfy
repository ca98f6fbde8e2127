/** Failure-carrying datatypes shared by every module of the model. */
module Wrappers {

  /** A value that may be absent: Go's nil pointer, Java's null or an empty Optional. */
  datatype Option<+T> = None | Some(value: T)

  /** Either a value or an error, as returned by a Go `(T, error)` pair or a Java method that throws. */
  datatype Result<+T, +E> = Success(value: T) | Failure(error: E)

  /** An error or nothing, as returned by a Go function whose only result is `error`. */
  datatype Outcome<+E> = Pass | Fail(error: E)
}
