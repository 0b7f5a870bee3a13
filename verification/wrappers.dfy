/** Failure-carrying datatypes shared by the other modules. */
module Wrappers {

  /** An optional value; Python's `None` is `None` here. */
  datatype Option<+T> = None | Some(value: T)

  /** The outcome of a computation that either succeeds with a value or fails
      with an error value (a Python exception that the caller sees). */
  datatype Result<+R, +E> = Success(value: R) | Failure(error: E)
}
