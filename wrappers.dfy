/** Optional values and the outcome of an operation that can raise. */
module Wrappers {

  datatype Option<T> = None | Some(value: T)

  /** `Failure` carries the name of the exception the source raises. */
  datatype Result<T> = Success(value: T) | Failure(error: string)
}
