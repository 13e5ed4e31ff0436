/** Failure-carrying results shared by the whole model. */
module Wrappers {

  datatype Option<+T> = None | Some(value: T)

  /** What a Go call comes back with: a value, an error value, or not at all because of a run-time panic.
      Errors are named after the error value that the original wraps. */
  datatype Result<+T> = Ok(value: T) | Err(error: string) | Panic
}
