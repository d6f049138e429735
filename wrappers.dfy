/** Failure-carrying results: Python's exceptions become the `Err` or `None` case. */
module Wrappers {

  datatype Option<+T> = None | Some(value: T)

  datatype Result<+T, +E> = Ok(value: T) | Err(error: E)
}
