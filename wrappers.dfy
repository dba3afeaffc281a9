/** Option and Result values for lookups that may miss and operations that may be rejected. */
module Wrappers {

  datatype Option<+T> = None | Some(value: T)

  /** The outcome of a ledger operation: a value, or the reason it was rejected. */
  datatype Result<+T, +E> = Ok(value: T) | Err(error: E)
}
