/** Option and Result datatypes shared by the other modules. */
module Wrappers {

  /** A value that may be absent: `None` stands for Python's `None` and pandas' NaN. */
  datatype Option<+T> = None | Some(value: T)

  /** The outcome of an operation that can fail. */
  datatype Result<+R, +E> = Success(value: R) | Failure(error: E)
}
