/** Option and Result, the two failure-carrying types the model needs. */
module Wrappers {

  /** An optional value, as a field of a deserialized configuration node. */
  datatype Option<+T> = None | Some(value: T) {

    /** The contained value, or `default` when absent (`unwrap_or`). */
    function UnwrapOr(default: T): T {
      match this
      case Some(v) => v
      case None => default
    }
  }

  /** The outcome of an operation that can fail where the source panics or bails. */
  datatype Result<+T, +E> = Ok(value: T) | Err(error: E)
}
