/** Outcome datatypes shared by the other modules. */
module Wrappers {

  /** A value that may be absent (a missing request field, a failed lookup). */
  datatype Option<+T> = None | Some(value: T)

  /** The outcome of a request handler: a value, or the error it answers with. */
  datatype Result<+T, +E> = Ok(value: T) | Err(error: E)
}
