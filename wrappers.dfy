/** Option and Result, the two failure-carrying shapes used throughout the model. */
module Wrappers {

  /** A JavaScript value that may be `undefined`: `None` stands for `undefined`. */
  datatype Option<+T> = None | Some(value: T)

  /** The outcome of code that either returns a value or throws. */
  datatype Result<+T, +E> = Ok(value: T) | Err(error: E)
}
