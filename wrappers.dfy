/** Optional values and results with an error, shared by every module. */
module Wrappers {

  /** A value that may be absent: a JSON key that is missing, Python's `None`. */
  datatype Option<+T> = None | Some(value: T)

  /** A computation that either succeeds or raises an exception. */
  datatype Result<+T, +E> = Ok(value: T) | Err(error: E)
}
