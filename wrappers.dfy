/** Optional values and error results shared by the modules of the model. */
module Wrappers {

  datatype Option<+T> = None | Some(value: T)

  /** A Go `(value, error)` pair: either a value, or the error's message. */
  datatype Result<+T> = Ok(value: T) | Err(message: string)
}
