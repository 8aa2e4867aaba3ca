/** Failure-carrying wrappers shared by the pipeline modules. */
module Wrappers {

  /** A value that may be absent: pandas' NaN for a grade, "not found" for a lookup. */
  datatype Option<+T> = None | Some(value: T)

  /** An outcome that either carries a value or the reason it could not be produced. */
  datatype Result<+T, +E> = Ok(value: T) | Err(error: E)
}
