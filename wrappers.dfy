/** Option and Result, the two failure-carrying shapes the codec returns. */
module Wrappers {

  /** A value that may be missing: a recogniser that did not match returns None. */
  datatype Option<+T> = None | Some(value: T)

  /** Either a decoded value or the error that explains why there is none. */
  datatype Result<+T, +E> = Ok(value: T) | Err(error: E)
}
