/** Optional values and results shared by the modules of the model. */
module Wrappers {

  datatype Option<+T> = None | Some(value: T)

  /** The outcome of an operation that either yields a value or fails with
      an error (a Go error return, or a runtime panic). */
  datatype Result<+T, +E> = Ok(value: T) | Err(error: E)
}
