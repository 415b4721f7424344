/** Optional values and success/failure results for what the service returns or throws. */
module Wrappers {

  /** A Java reference that may be null. */
  datatype Option<+T> = None | Some(value: T)

  /** A normal return with a value, or a thrown exception. */
  datatype Result<+R, +E> = Success(value: R) | Failure(error: E)
}
