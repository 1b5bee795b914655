/** Failure-carrying values shared by the modules of the renderer model. */
module Wrappers {
  datatype Option<+T> = None | Some(value: T)

  /** The outcome of an operation that either completes or throws. */
  datatype Outcome<+E> = Pass | Fail(error: E)

  datatype Result<+R, +E> = Success(value: R) | Failure(error: E)
}
