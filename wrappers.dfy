/** Option and Result, used for the pipeline's absent values and raised errors. */
module Wrappers {

  datatype Option<+T> = None | Some(value: T)

  /** A Python function that either returns `value` or raises `error`. */
  datatype Result<+R, +E> = Ok(value: R) | Err(error: E)
}
