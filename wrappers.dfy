/** Failure-compatible wrappers shared by the model. */
module Wrappers {

  datatype Option<+T> = None | Some(value: T)

  /** The outcome of a derivation: the generated item, or a compile error. */
  datatype Result<+T, +E> = Ok(value: T) | Err(error: E)
}
