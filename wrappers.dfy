/** Optional values and success/failure results, standing in for C#'s `null`
    references and thrown exceptions. */
module Wrappers {

  /** `None` plays the part of a C# `null` reference. */
  datatype Option<+T> = None | Some(value: T)

  /** `Failure` plays the part of an exception thrown out of a call. */
  datatype Result<+R, +E> = Success(value: R) | Failure(error: E)
}
