/** Failure-carrying result types shared by the directory model, and the two
    exception kinds the directory raises. */
module Wrappers {

  datatype Option<+T> = None | Some(value: T)

  datatype Result<+T, +E> = Success(value: T) | Failure(error: E)

  /** An operation that either completes or fails, with no value of its own. */
  datatype Outcome<+E> = Pass | Fail(error: E)

  /** The Python exceptions raised by the directory: `ValueError` for bad input
      and duplicates, `KeyError` for deleting a missing name. */
  datatype Error = ValueError(message: string) | KeyError(message: string)
}
