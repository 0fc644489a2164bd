/** Optional values and results shared by the model. */
module Wrappers {

  /** A value that may be absent (an `undefined` field, or a null the code
      handles through optional chaining). */
  datatype Option<+T> = None | Some(value: T)

  /** The outcome of a computation that may throw: `Failure` is an exception
      that nothing in the modelled code catches. */
  datatype Result<+T, +E> = Success(value: T) | Failure(error: E)
}
