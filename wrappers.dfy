/** Optional values and results, used for JavaScript's `undefined` and for
    operations that either produce a value or throw. */
module Wrappers {
  datatype Option<+T> = None | Some(value: T)

  datatype Result<+R, +E> = Success(value: R) | Failure(error: E)
}
