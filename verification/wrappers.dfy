/** Failure-carrying datatypes shared by every module of the model. */
module Wrappers {

  /** Python's `None` or a present value. */
  datatype Option<+T> = None | Some(value: T)

  /** A value, or the message of an exception raised instead of producing it. */
  datatype Result<+T, +E> = Ok(value: T) | Err(error: E)
}
