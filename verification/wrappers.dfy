/** Failure-carrying datatypes shared by the whole model. */
module Wrappers {

  /** A value that may be absent: a missing snapshot, a failed fetch or parse. */
  datatype Option<+T> = None | Some(value: T)

  /** The outcome of a command: the value it produced, or the error it replied with. */
  datatype Result<+T, +E> = Ok(value: T) | Err(error: E)
}
