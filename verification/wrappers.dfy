/** Option and Result types used across the model. */
module Wrappers {

  /** An optional value; `None` stands for JavaScript's `null`/`undefined`. */
  datatype Option<+T> = None | Some(value: T)

  /** The outcome of an action that can be rejected. */
  datatype Result<+T, +E> = Success(value: T) | Failure(error: E)
}
