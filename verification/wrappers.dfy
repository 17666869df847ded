/** Optional values and success/failure results shared by every module. */
module Wrappers {

  /** A value that may be absent; Python's `None` stands for `None` here. */
  datatype Option<+T> = None | Some(value: T)

  /** The outcome of an operation that raises in the source program. */
  datatype Result<+R, +E> = Ok(value: R) | Err(error: E)
}
