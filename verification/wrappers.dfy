/** Option and Result, the two failure-carrying values the model uses. */
module Wrappers {

  datatype Option<+T> = None | Some(value: T)

  /** The outcome of a call that may raise: the value it returns, or the
      description of the exception (Python's `str(e)`). */
  datatype Result<+R, +E> = Success(value: R) | Failure(error: E)
}
