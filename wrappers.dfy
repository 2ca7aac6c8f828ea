/** Option and Result, for the values the handlers may lack and the errors they report. */
module Wrappers {

  datatype Option<+T> = None | Some(value: T)

  /** A computation that either produced a value or failed on a named input. */
  datatype Result<+T, +E> = Success(value: T) | Failure(error: E)
}
