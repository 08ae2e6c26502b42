/** Optional values and results with an error, as the archiver's lookups and fallible steps need them. */
module Wrappers {

  /** A value that may be absent: Python's `None` for nullable columns and for `dict.get` misses. */
  datatype Option<+T> = None | Some(value: T)

  /** The outcome of a step that may raise. */
  datatype Result<+T, +E> = Success(value: T) | Failure(error: E)
}
