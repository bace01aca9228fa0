/** Failure-carrying values shared by the whole model. */
module Wrappers {

  datatype Option<+T> = None | Some(value: T)

  /** The value of a Python expression that either yields `value` or raises `error`. */
  datatype Result<+T, +E> = Ok(value: T) | Err(error: E)
}
