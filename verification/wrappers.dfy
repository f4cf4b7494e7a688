/** Failure-compatible wrappers used for sparse tuple slots and decode errors. */
module Wrappers {

  /** A slot that may be absent (or set to a falsy placeholder). */
  datatype Option<+T> = None | Some(value: T)

  /** The outcome of a decode step that can fail. */
  datatype Result<+R, +E> = Success(value: R) | Failure(error: E)
}
