/** The two failure-carrying types used throughout the project. */
module Wrappers {

  /** A Go pointer or map lookup that may be absent. */
  datatype Option<+T> = None | Some(value: T)

  /** A Go (value, error) pair. */
  datatype Result<+T, +E> = Ok(value: T) | Err(error: E)
}
