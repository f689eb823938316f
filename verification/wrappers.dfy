/** Failure-carrying datatypes shared by the models. */
module Wrappers {

  /** A value that may be absent. */
  datatype Option<+T> = None | Some(value: T)

  /** A value or an error, the models' form of the source's error returns. */
  datatype Result<+T, +E> = Success(value: T) | Failure(error: E)
}
