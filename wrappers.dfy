/** Optional values and success-or-error results, used for the service's
    HTTP errors and for the frontend's optional fields. */
module Wrappers {

  datatype Option<+T> = None | Some(value: T)

  datatype Result<+R, +E> = Success(value: R) | Failure(error: E)
}
