/** Optional values and results with an error, used for JavaScript's `undefined`
    route parameters and for handlers whose body can throw. */
module Wrappers {

  datatype Option<+T> = None | Some(value: T)

  datatype Result<+R, +E> = Success(value: R) | Failure(error: E)
}
