/** Option and Result, used wherever the source returns null/undefined or reports validation issues. */
module Wrappers {

  datatype Option<+T> = None | Some(value: T)

  datatype Result<+R, +E> = Success(value: R) | Failure(error: E)
}
