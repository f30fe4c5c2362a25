/** Failure-compatible result types shared by the routing model. */
module Wrappers {

  /** A value that may be absent: JavaScript's `null` or `undefined`. */
  datatype Option<+T> = None | Some(value: T)

  /** A value, or the error a call throws instead of returning it. */
  datatype Result<+T, +E> = Ok(value: T) | Err(error: E)
}
