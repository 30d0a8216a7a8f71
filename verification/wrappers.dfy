/** Option and Result, the two failure-carrying shapes used throughout the model. */
module Wrappers {

  /** A Ruby value that may be `nil`. */
  datatype Option<+T> = None | Some(value: T) {
    function GetOr(default: T): T {
      match this
      case Some(v) => v
      case None => default
    }
  }

  /** The outcome of an operation that can raise. */
  datatype Result<+T, +E> = Ok(value: T) | Err(error: E)
}
