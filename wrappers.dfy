/** Option and Result, the failure-carrying values the builder returns instead of raising. */
module Wrappers {

  datatype Option<+T> = None | Some(value: T)

  /** `Err` stands for a Python exception escaping the operation. */
  datatype Result<+T, +E> = Ok(value: T) | Err(error: E)
}
