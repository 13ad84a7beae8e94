/** Outcome types shared by the whole model: an absent value and an operation
  * that either produces a value or fails with the message the source would
  * throw. */
module Wrappers {

  datatype Option<T> = None | Some(value: T)

  /** A C++ call that returns `value`, or throws an exception carrying `msg`. */
  datatype Result<T> = Ok(value: T) | Err(msg: string)

}
