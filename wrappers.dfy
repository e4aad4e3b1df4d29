/** Option and Result, the failure-carrying values used across the model. */
module Wrappers {

  /** A value that may be absent; in this model None also stands for
      JavaScript's `undefined`. */
  datatype Option<+T> = None | Some(value: T)

  /** The outcome of a step that may throw. */
  datatype Result<+T, +E> = Ok(value: T) | Err(error: E)
}
