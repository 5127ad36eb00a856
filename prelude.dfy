/** Small wrapper types shared by every module of the model. */
module Prelude {

  /** A value that may be absent: Python's `None` and JavaScript's `null`/`undefined`. */
  datatype Option<T> = None | Some(value: T)

  /** The outcome of a call that can fail; `Err` carries the failure. */
  datatype Result<T, E> = Ok(value: T) | Err(error: E)
}
