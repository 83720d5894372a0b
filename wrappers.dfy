/** Option, Result and Outcome: the error paths of the shipper as values. */
module Wrappers {

  datatype Option<+T> = None | Some(value: T)

  /** Either a value or the error that the source would have thrown. */
  datatype Result<+R, +E> = Ok(value: R) | Err(error: E)

  /** Success or the error that the source would have thrown, for operations without a value. */
  datatype Outcome<+E> = Pass | Fail(error: E)
}
