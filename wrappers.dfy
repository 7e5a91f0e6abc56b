/** Option and Result, the two failure-carrying values the rest of the model uses:
    Option stands for a value that may be missing (Python's None, a pandas NaN),
    Result for an operation that either returns or raises. */
module Wrappers {

  datatype Option<+T> = None | Some(value: T)

  datatype Result<+T, +E> = Ok(value: T) | Err(error: E)
}
