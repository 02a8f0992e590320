/** The Option and Result datatypes shared by the chess model. */
module Wrappers {

  /** An optional value; the model's stand-in for Python's None. */
  datatype Option<+T> = None | Some(value: T)

  /** A value or an error; the model's stand-in for a raised exception. */
  datatype Result<+T, +E> = Success(value: T) | Failure(error: E)
}
