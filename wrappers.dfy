/** Optional values and results with an error, used where the modelled code
    reports "no value" (a false return) or raises. */
module Wrappers {

  datatype Option<+T> = None | Some(value: T)

  datatype Result<+T, +E> = Success(value: T) | Failure(error: E)
}
