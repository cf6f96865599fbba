/** Optional and result types shared by the other modules. */
module Wrappers {

  /** A value that may be absent; `None` stands for "no value was returned". */
  datatype Option<+T> = None | Some(value: T)

  /** Either a computed value or the error that interrupted the computation. */
  datatype Result<+T, +E> = Success(value: T) | Failure(error: E)
}
