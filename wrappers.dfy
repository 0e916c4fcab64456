/** Small failure-carrying datatypes shared by the page models. */
module Wrappers {

  /** A value that may be absent: JavaScript's `null`/`undefined` next to a present value. */
  datatype Option<+T> = None | Some(value: T)

  /** The outcome of a handler: a value, or the message it shows in its error toast. */
  datatype Result<+T, +E> = Ok(value: T) | Err(error: E)
}
