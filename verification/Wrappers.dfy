/** Results that the other modules share. */
module Wrappers {

  datatype Option<+T> = None | Some(value: T)

  datatype Result<+T, +E> = Ok(value: T) | Err(error: E)

  /** For operations that can also panic. */
  datatype Outcome<+T, +E> = Done(value: T) | Failed(error: E) | Panicked
}
