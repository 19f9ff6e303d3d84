/** Optional values and success-or-error results, used for the regex scanners'
    "no match here" answers and for the HTTP route's early rejections. */
module Wrappers {

  datatype Option<+T> = None | Some(value: T)

  datatype Result<+R, +E> = Success(value: R) | Failure(error: E)
}
