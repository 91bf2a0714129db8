/** The two small result types the other modules share. */
module Wrappers {

  /** A value that may be absent: Go's nil pointers and missing map entries, Java's Optional. */
  datatype Option<+T> = None | Some(value: T)

  /** The value a fallible call returns, or its error. */
  datatype Result<+T, +E> = Success(value: T) | Failure(error: E)
}
