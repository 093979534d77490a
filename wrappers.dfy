/** Failure-carrying values shared by the model's modules. */
module Wrappers {

  /** A value that may be absent: Python's `None` or a regex search that found nothing. */
  datatype Option<+T> = None | Some(value: T)

  /** The outcome of an operation that can raise: `Ok` carries the value, `Err` the exception. */
  datatype Result<+T, +E> = Ok(value: T) | Err(error: E)
}
