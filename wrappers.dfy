/** Failure-carrying result types shared by the model.
    A fatal assertion or exception of the runtime becomes an `Err`/`Fail`
    value, so that every error path can be stated in a postcondition. */
module Wrappers {

  datatype Option<+T> = None | Some(value: T)

  /** A value or the error that aborted the computation. */
  datatype Result<+T, +E> = Ok(value: T) | Err(error: E)

  /** Success without a value, or the error that aborted the operation. */
  datatype Outcome<+E> = Pass | Fail(error: E)
}
