/** The error-carrying result type shared by the model's modules. */
module Wrappers {

  /** Either a value or the error that stopped the computation producing it. */
  datatype Result<+T, +E> = Ok(value: T) | Err(error: E)
}
