/** Option and Result datatypes used throughout the model for Go's nil values
    and for Go's (value, error) return pairs. */
module Wrappers {

  /** A Go pointer or slice that may be nil. */
  datatype Option<+T> = None | Some(value: T)

  /** The outcome of an operation that either yields a value or fails with an error. */
  datatype Result<+T, +E> = Ok(value: T) | Err(error: E)
}
