/** The two result shapes the model needs: a value that may be absent, and a
    call that may return an error. */
module Wrappers {
  datatype Option<+T> = None | Some(value: T)

  datatype Result<+T, +E> = Ok(value: T) | Err(error: E)
}
