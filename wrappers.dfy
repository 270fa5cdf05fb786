/** Optional values and error outcomes shared by every module of the model. */
module Wrappers {

  /** A JavaScript value that may be `undefined` or `null`. */
  datatype Option<+T> = None | Some(value: T)

  /** The outcome of a step that can throw. */
  datatype Result<+T, +E> = Ok(value: T) | Err(error: E)
}
