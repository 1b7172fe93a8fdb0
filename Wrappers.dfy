/** Failure-carrying values for the operations of the model that throw in the source. */
module Wrappers {

  datatype Option<+T> = None | Some(value: T)

  /** The outcome of an operation that either yields a value or fails with an error. */
  datatype Result<+R, +E> = Ok(value: R) | Err(error: E)

  /** The outcome of an operation that yields nothing but may fail. */
  datatype Outcome<+E> = Pass | Fail(error: E)
}
