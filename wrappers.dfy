/** Failure-compatible wrappers shared by the model. */
module Wrappers {

  /** `None` stands for JavaScript's `undefined`: a value that is absent. */
  datatype Option<+T> = None | Some(value: T)

  /** The outcome of an operation that may throw. */
  datatype Result<+T, +E> = Ok(value: T) | Err(error: E)
}
