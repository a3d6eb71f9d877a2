/** Option and Result, the two failure-carrying shapes the model uses. */
module Wrappers {

  /** A value that may be absent: Python's `None` versus a present value. */
  datatype Option<+T> = None | Some(value: T)

  /** The outcome of Python code that may raise an exception nobody catches. */
  datatype Result<+R, +E> = Success(value: R) | Failure(error: E)
}
