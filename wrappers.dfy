/** Option and Result, the two failure-carrying value types the model uses
    for nullable columns and for operations that raise. */
module Wrappers {

  /** A nullable cell: None is a null (Python None, pandas NaN, polars null). */
  datatype Option<+T> = None | Some(value: T) {
    function GetOr(default: T): T
    {
      match this
      case Some(v) => v
      case None => default
    }
  }

  /** The outcome of an operation that either returns a value or raises. */
  datatype Result<+T, +E> = Ok(value: T) | Err(error: E)
}
