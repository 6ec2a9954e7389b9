/** Option and Result, for the places where the source yields "nothing",
    NaN, or rejects an input with a message. */
module Wrappers {

  datatype Option<+T> = None | Some(value: T)

  datatype Result<+R, +E> = Success(value: R) | Failure(error: E)
}
