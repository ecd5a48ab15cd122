/** Failure-compatible wrappers shared by every stage: a missing value and an aborted run. */
module Wrappers {

  /** A value that may be absent: pandas' NaN in a recoded column. */
  datatype Option<+T> = None | Some(value: T)

  /** The outcome of a stage: its table, or the error that aborts the pipeline. */
  datatype Result<+T, +E> = Ok(value: T) | Err(error: E)
}
