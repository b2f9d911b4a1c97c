/** Optional values and results with a typed error, standing for the
    source's `T | undefined` returns and its thrown `Error`s. */
module Wrappers {

  datatype Option<+T> = None | Some(value: T)

  datatype Result<+T, +E> = Success(value: T) | Failure(error: E)
}
