/** Option and result types for the source's null results and thrown errors. */
module Wrappers {

  /** A value or JavaScript's `null`/`undefined`. */
  datatype Option<+T> = None | Some(value: T)

  /** The result of a call that either returns a value or throws an error. */
  datatype Result<+T, +E> = Success(value: T) | Failure(error: E)

  /** The result of a call that returns nothing or throws an error. */
  datatype Outcome<+E> = Pass | Fail(error: E)
}
