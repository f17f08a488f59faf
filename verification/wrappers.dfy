/** The optional values and exception-or-value results every other module builds on. */
module Wrappers {

  /** A value that may be absent; Python's `None` is `None` here. */
  datatype Option<+T> = None | Some(value: T)

  /** Either a computed value or the exception that ended the computation. */
  datatype Result<+R, +E> = Success(value: R) | Failure(error: E)
}
