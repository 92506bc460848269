/** Value wrappers shared by every module of the model. */
module Wrappers {

  /** A value that may be missing: a nil reference, a zero time, a failed lookup. */
  datatype Option<+T> = None | Some(value: T)

  /** A constructor's outcome: a value, or the reason it was refused. */
  datatype Result<+T, +E> = Ok(value: T) | Err(error: E)
}
