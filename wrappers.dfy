/** Option, Result and Outcome: the failure-carrying values the model uses in
    place of the exceptions and null pointers of the C++ code. */
module Wrappers {

  datatype Option<+T> = None | Some(value: T)

  /** A computation that yields a value or fails with an error. */
  datatype Result<+T, +E> = Success(value: T) | Failure(error: E)

  /** A computation that yields nothing but may fail (a void function that may throw). */
  datatype Outcome<+E> = Pass | Fail(error: E)
}
