/** The optional-value and result types shared by the whole model. */
module Wrappers {

  /** A value that may be absent: a missing request field, an unsaved id, no image. */
  datatype Option<+T> = None | Some(value: T)

  /** The outcome of a validation or lookup: a value, or the reason it was refused. */
  datatype Result<+T, +E> = Success(value: T) | Failure(error: E)
}
