/** Optional values and results shared by the other modules. */
module Wrappers {

  /** A value that may be missing: Python's `None` on one side, a value on the other. */
  datatype Option<+T> = None | Some(value: T)

  /** The outcome of an operation that raises on failure in the source. */
  datatype Result<+R, +E> = Success(value: R) | Failure(error: E)
}
