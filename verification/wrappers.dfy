/** The result type used for the balancer's `(value, error)` returns. */
module Wrappers {

  /** Either a value or an error message, mirroring Go's `(T, error)` pair. */
  datatype Result<+T> = Ok(value: T) | Err(error: string)
}
