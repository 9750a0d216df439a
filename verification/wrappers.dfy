/** Failure-carrying datatypes shared by the other modules. */
module Wrappers {

  /** A value that may be missing. A price bound that does not parse is `None`. */
  datatype Option<+T> = None | Some(value: T)

  /** The outcome of an operation that can fail, such as the catalog request. */
  datatype Result<+R, +E> = Success(value: R) | Failure(error: E)
}
