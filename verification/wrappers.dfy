/** Failure-carrying datatypes shared by the encryption model. */
module Wrappers {

  /** A value that may be absent; used for a configuration setting that may be missing and for a cipher
      lookup that may fail. */
  datatype Option<+T> = None | Some(value: T)

  /** The outcome of an operation that can fail with an error of type E. */
  datatype Result<+R, +E> = Success(value: R) | Failure(error: E)
}
