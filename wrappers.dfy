/** Optional values and results with an error, as the services return them
    (`T | null`, a thrown `Error`). */
module Wrappers {

  datatype Option<+T> = None | Some(value: T)

  datatype Result<+T, +E> = Success(value: T) | Failure(error: E)
}
