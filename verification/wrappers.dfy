/** Failure-carrying result types shared by the model. */
module Wrappers {

  /** A value that may be absent. */
  datatype Option<+T> = None | Some(value: T)

  /** The outcome of a transition that can throw in the original program. */
  datatype Result<+T, +E> = Ok(value: T) | Err(error: E)
}
