/** Option and Result values shared by the modules of this model. */
module Wrappers {
  datatype Option<T> = None | Some(value: T)

  /** A computation that either produces a value or fails with a message. */
  datatype Result<T> = Ok(value: T) | Err(error: string)
}
