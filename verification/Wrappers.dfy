/** Result types shared by the other modules. */
module Wrappers {

  datatype Option<+T> = None | Some(value: T)

  datatype Result<+T, +E> = Ok(value: T) | Err(error: E)

  /** How a call to another system fares: done and acknowledged, done with the reply lost, or not done. */
  datatype Fate = Done | Lost | Failed
}
