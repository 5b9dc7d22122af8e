/** Optional values and results with an error, used for Python's `None` returns and exceptions. */
module Wrappers {

  /** A value or Python's `None`. */
  datatype Option<+T> = None | Some(value: T)

  /** A value, or the message of an exception that was raised instead. */
  datatype Result<+T, +E> = Success(value: T) | Failure(error: E)
}
