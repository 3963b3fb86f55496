/** The two result shapes shared by every component: a value that may be absent,
    and a computation that may raise. */
module Outcome {

  datatype Option<+T> = None | Some(value: T)

  datatype Result<+T, +E> = Ok(value: T) | Err(error: E)
}
