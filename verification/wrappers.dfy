/** Failure-compatible wrappers used by every other module: `Option` for the
    source's nullable references and `Result` for calls that either succeed
    or throw. */
module Wrappers {

  /** A nullable reference: `None` plays the role of C#'s `null`. */
  datatype Option<+T> = None | Some(value: T)

  /** The outcome of a call that may throw: `Failure` carries the exception. */
  datatype Result<+R, +E> = Success(value: R) | Failure(error: E)
}
