/** Failure-carrying values used where the C++ code returns std::optional or throws. */
module Wrappers {

  /** std::optional: either no value or one value. */
  datatype Option<T> = None | Some(value: T)

  /** A computation that either yields a value or fails with an error. */
  datatype Result<T, E> = Ok(value: T) | Err(error: E)
}
