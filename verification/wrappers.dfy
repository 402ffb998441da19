/** Failure-carrying datatypes shared by every module of the model. */
module Wrappers {

  /** An optional value: a missing document field, an absent target, a lookup miss. */
  datatype Option<+T> = None | Some(value: T)

  /** The value of a Python call that either returns or raises. */
  datatype Result<+R, +E> = Success(value: R) | Failure(error: E)
}
