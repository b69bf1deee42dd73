/** Failure-compatible result types shared by the document-cropping model. */
module Wrappers {

  /** A value that may be absent, as Python's `None`. */
  datatype Option<+T> = None | Some(value: T)

  /** The outcome of an operation that can raise. */
  datatype Result<+T, +E> = Ok(value: T) | Err(error: E)
}
