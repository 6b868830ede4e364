/** Small failure-compatible wrappers shared by every module of the model. */
module Wrappers {

  /** Rust's `Option<T>`. */
  datatype Option<+T> = None | Some(value: T)

  /** A code-generation outcome: either the value, or an error diagnostic message. */
  datatype Result<+T> = Ok(value: T) | Err(message: string)
}
