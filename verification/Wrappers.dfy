/** Option and Result: a possibly missing value, and a returned error in place of a thrown one. */
module Wrappers {

  datatype Option<+T> = None | Some(value: T)

  datatype Result<+T, +E> = Success(value: T) | Failure(error: E)
}
