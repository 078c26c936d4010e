/** Small failure-carrying datatypes used by the codec and the holders. */
module Wrappers {

  /** An optional value; `None` stands for Go's nil `error`. */
  datatype Option<+T> = None | Some(value: T)

  /** A value or an error, for Go's `(T, error)` return pairs. */
  datatype Result<+R, +E> = Success(value: R) | Failure(error: E)
}
