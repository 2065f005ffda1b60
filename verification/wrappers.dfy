/** Optional values and success-or-error results, used for the optional
    fields of a match and for the builder's validation errors. */
module Wrappers {

  datatype Option<+T> = None | Some(value: T)

  datatype Result<+R, +E> = Success(value: R) | Failure(error: E)
}
