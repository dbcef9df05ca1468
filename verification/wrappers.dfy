/** Optional values and results with an error, used where the component holds
    `null` or where a handler can throw. */
module Wrappers {

  /** A value that may be absent; `None` plays the role of JavaScript's `null`
      and `undefined`. */
  datatype Option<+T> = None | Some(value: T)

  /** Either the value an operation produced or the error it raised. */
  datatype Result<+T, +E> = Ok(value: T) | Err(error: E)
}
