/** Optional values and error-carrying results, used where the TypeScript code
    has `null`/`undefined` fields or throws. */
module Wrappers {

  datatype Option<+T> = None | Some(value: T)

  datatype Result<+R, +E> = Success(value: R) | Failure(error: E)
}
