/** The outcome of a call that may raise: either a value or the raised error. */
module Outcomes {

  datatype Result<+T, +E> = Success(value: T) | Failure(error: E)
}
