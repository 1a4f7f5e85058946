/** The two failure-carrying shapes used throughout the model. */
module Wrappers {

  /** A value that may be absent; stands in for the infinite sentinels of the integrator. */
  datatype Option<+T> = None | Some(value: T)

  /** Either a computed value or the error that stopped the computation. */
  datatype Result<+T, +E> = Ok(value: T) | Err(error: E)
}
