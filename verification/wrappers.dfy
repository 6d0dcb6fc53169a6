/** Failure-carrying result type, used for the outcome of flag validation. */
module Wrappers {

  /** Either a successful value or the error that stopped the computation. */
  datatype Result<+R, +E> = Success(value: R) | Failure(error: E)
}
