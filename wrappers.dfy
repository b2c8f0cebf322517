/** Option and Result, the two failure-carrying types the model uses in place of
    Python's exceptions and Go's error returns. */
module Wrappers {

  datatype Option<+T> = None | Some(value: T)

  datatype Result<+T, +E> = Ok(value: T) | Err(error: E)
}
