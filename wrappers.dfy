/** Optional values and success/failure results shared by the model. */
module Wrappers {

  /** A value that may be absent (`undefined`/`null` in the plugin's code). */
  datatype Option<+T> = None | Some(value: T)

  /** The outcome of a command that can be refused with an alert. */
  datatype Result<+T, +E> = Ok(value: T) | Err(error: E)
}
