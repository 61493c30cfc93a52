/** Optional values and results, used wherever the source returns None or raises. */
module Wrappers {

  /** A value that may be absent (Python's `None`). */
  datatype Option<+T> = None | Some(value: T)

  /** A computation that either succeeds or stops with an error (a Python exception). */
  datatype Result<+T, +E> = Ok(value: T) | Err(error: E)
}
