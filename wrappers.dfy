/** Failure-carrying datatypes shared by every module of the model. */
module Wrappers {

  datatype Option<+T> = None | Some(value: T)

  /** A JavaScript call that either returns a value or throws an error with a message. */
  datatype Result<+R> = Success(value: R) | Failure(error: string)
}
