/** Optional values and results with an error message, used where the source
    returns `undefined`/`null` or fails an `invariant(...)` guard. */
module Wrappers {

  datatype Option<+T> = None | Some(value: T)

  datatype Result<+R> = Success(value: R) | Failure(error: string)
}
