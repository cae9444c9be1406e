/** Option and Result: absent values and failing computations. */
module Wrappers {

  /** A value that may be missing (JavaScript's `undefined` where a token or record is looked up). */
  datatype Option<+T> = None | Some(value: T)

  /** The outcome of a computation that may fail with an error of type E. */
  datatype Result<+T, +E> = Ok(value: T) | Err(error: E)
}
