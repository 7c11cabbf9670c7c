/** Option and Result, used for values that may be missing and for operations that may fail. */
module Wrappers {

  /** A value that may be absent: a spreadsheet blank, a database NULL or pandas' NaN. */
  datatype Option<+T> = None | Some(value: T)

  /** The outcome of an operation that either succeeds with a value or stops with an error. */
  datatype Result<+T, +E> = Ok(value: T) | Err(error: E)
}
