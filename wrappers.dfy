/** Option and Result, the two failure-carrying values the model uses. */
module Wrappers {

  /** A value that may be absent, such as a configuration option that is not set. */
  datatype Option<+T> = None | Some(value: T)

  /** The outcome of a step that can throw: its value, or why it threw. */
  datatype Result<+T, +E> = Ok(value: T) | Err(error: E)
}
