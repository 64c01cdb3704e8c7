/** Values that Java or Kotlin may leave null, and results that may carry an error. */
module Wrappers {

  /** A nullable reference: `None` stands for `null`. */
  datatype Option<+T> = None | Some(value: T)

  /** The value of a call that either returns normally or throws. */
  datatype Result<+R, +E> = Success(value: R) | Failure(error: E)
}
