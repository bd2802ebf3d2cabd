/** Failure-carrying results used by the chaincode model. */
module Wrappers {

  /** A value that may be missing, such as an identity attribute. */
  datatype Option<+T> = None | Some(value: T)

  /** The outcome of a transaction that returns only `error` in the source. */
  datatype Outcome<+E> = Pass | Fail(error: E)

  /** The outcome of a query that returns a value or an `error`. */
  datatype Result<+R, +E> = Success(value: R) | Failure(error: E)
}
