/** A nullable value and the result of a call that may throw.
    `Option` stands for a C# reference that may be null; `Result` stands for
    an operation that either returns normally or throws. */
module Wrappers {

  /** A value that may be absent (`None` plays the role of `null`). */
  datatype Option<+T> = None | Some(value: T)

  /** The outcome of an operation that may throw: `Failure` carries the exception. */
  datatype Result<+T, +E> = Success(value: T) | Failure(error: E)
}
