/** Failure-carrying wrappers shared by the modules of this model. */
module Wrappers {

  datatype Option<+T> = None | Some(value: T)

  datatype Result<+T, +E> = Success(value: T) | Failure(error: E)

  /** Success or failure of an operation that returns nothing else. */
  datatype Outcome<+E> = Pass | Fail(error: E)
}
