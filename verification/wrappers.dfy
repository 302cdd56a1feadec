/** Failure-carrying results shared by the service modules. */
module Wrappers {

  datatype Option<+T> = None | Some(value: T)

  /** A value or the error that a service raises instead of returning. */
  datatype Result<+T, +E> = Success(value: T) | Failure(error: E)

  /** A check that either lets the request through or stops it with an error. */
  datatype Outcome<+E> = Pass | Fail(error: E)
}
