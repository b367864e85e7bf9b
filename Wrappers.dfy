/** Option and Result, standing for Go's nil `*T` arguments and `(value, error)` returns. */
module Wrappers {

  /** A value that may be absent; `None` stands for a Go nil `*T`. */
  datatype Option<+T> = None | Some(value: T)

  /** The outcome of a Go call returning `(value, error)`. */
  datatype Result<+T, +E> = Ok(value: T) | Err(error: E)
}
