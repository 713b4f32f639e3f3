/** Optional values and results of computations that may throw, used throughout the model. */
module Wrappers {

  /** A value that may be absent (a C# null reference or an unset protobuf field). */
  datatype Option<+T> = None | Some(value: T)

  /** The value of a computation that may throw: `Failure` carries the reason. */
  datatype Result<+R, +E> = Success(value: R) | Failure(error: E)
}
