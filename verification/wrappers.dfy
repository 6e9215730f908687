/** Failure-carrying return types used by the model in place of exceptions. */
module Wrappers {

  /** An optional value: `None` where the source has nothing to return. */
  datatype Option<+T> = None | Some(value: T)

  /** Either a value or the error that aborted the computation. */
  datatype Result<+R, +E> = Success(value: R) | Failure(error: E)
}
