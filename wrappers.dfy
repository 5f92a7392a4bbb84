/** Option and Result, used for missing values and for the error paths of the pipeline. */
module Wrappers {

  /** A value that may be absent: a coerced price that did not parse, an omitted holdings map. */
  datatype Option<+T> = None | Some(value: T)

  /** The outcome of an operation that can fail with an error of type E. */
  datatype Result<+T, +E> = Ok(value: T) | Err(error: E)
}
