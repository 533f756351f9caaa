/** The Option and Result types shared by the modules of this model. */
module Wrappers {

  datatype Option<+T> = None | Some(value: T)

  /** The outcome of an operation that may raise: Ok carries the value, Err the raised error. */
  datatype Result<+T, +E> = Ok(value: T) | Err(error: E)
}
