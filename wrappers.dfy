/** Failure-compatible result types shared by the other modules. */
module Wrappers {

  /** A value that may be absent (Python's None). */
  datatype Option<+T> = None | Some(value: T)

  /** A computed value, or the error that aborted the computation. */
  datatype Result<+T, +E> = Success(value: T) | Failure(error: E)

  /** Completion of a step that computes nothing but may abort with an error. */
  datatype Outcome<+E> = Pass | Fail(error: E)
}
