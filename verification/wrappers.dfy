/** Failure-compatible wrappers used across the model. */
module Wrappers {

  /** An optional value: the model's stand-in for JavaScript's `null`/`undefined`. */
  datatype Option<+T> = None | Some(value: T)

  /** The outcome of an operation that the source lets throw. */
  datatype Result<+R, +E> = Success(value: R) | Failure(error: E)
}
