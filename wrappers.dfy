/** Failure-compatible wrappers used for the plugin's error returns. */
module Wrappers {

  datatype Option<+T> = None | Some(value: T)

  /** A Go `(value, error)` pair: either a value or the error's text. */
  datatype Result<+R, +E> = Success(value: R) | Failure(error: E)
}
