/** Failure-carrying wrappers shared by every module of the loader model. */
module Wrappers {

  /** A value that may be absent: a null cell, an error that does not occur. */
  datatype Option<+T> = None | Some(value: T)

  /** The outcome of a step that raises on failure; the error is the exception's text. */
  datatype Result<+T> = Ok(value: T) | Err(error: string)
}
