/** The datatypes for absent values and raised errors that the other modules share. */
module Wrappers {

  /** A Python value that may be `None`. */
  datatype Option<+T> = None | Some(value: T)

  /** A call that returns a value or raises. */
  datatype Result<+T, +E> = Success(value: T) | Failure(error: E)
}
