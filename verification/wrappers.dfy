/** Failure-carrying datatypes shared by the classifier modules. */
module Wrappers {

  /** A value that may be absent; Python's `None` is `None` here. */
  datatype Option<+T> = None | Some(value: T)

  /** Either a value or the error that an operation raises instead. */
  datatype Result<+T, +E> = Ok(value: T) | Err(error: E)
}
