/** Failure-carrying values shared by the card-key model. */
module Wrappers {

  /** A value that may be absent; stands for a JSON field that may hold null. */
  datatype Option<+T> = None | Some(value: T)

  /** The outcome of an operation that either returns a value or raises an error. */
  datatype Result<+T, +E> = Success(value: T) | Failure(error: E)
}
