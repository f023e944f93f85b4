/** Result types used in place of Python's None and exceptions. */
module Wrappers {

  /** A Python value that may be None. */
  datatype Option<+T> = None | Some(value: T)

  /** A computation that returns a value or raises an error. */
  datatype Result<+R, +E> = Success(value: R) | Failure(error: E)

  /** A check that passes or raises an error, with no value. */
  datatype Outcome<+E> = Pass | Fail(error: E)
}
