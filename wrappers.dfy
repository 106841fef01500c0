/** Failure-compatible result types shared by the engine abstraction and the dictionary. */
module Wrappers {

  datatype Option<+T> = None | Some(value: T)

  datatype Result<+T, +E> = Ok(value: T) | Err(error: E)
}
