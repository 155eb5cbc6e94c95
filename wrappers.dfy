/** Option and Result, the two failure-carrying types used throughout the model. */
module Wrappers {

  datatype Option<+T> = None | Some(value: T)

  /** A Python call either returns a value or raises; `Err` carries the raised error. */
  datatype Result<+T, +E> = Ok(value: T) | Err(error: E)
}
