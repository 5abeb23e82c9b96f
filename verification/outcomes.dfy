/** Failure-carrying wrappers shared by the price lookup and the DCA engine. */
module Outcomes {

  /** A lookup that may find nothing. */
  datatype Option<+T> = None | Some(value: T)

  /** A computation that either yields a value or stops with an error. */
  datatype Result<+T, +E> = Ok(value: T) | Err(error: E)
}
