/** Failure-compatible wrappers shared by the viewer model: `Option` for the
    Java `null` the source uses as "no value", `Result` for an operation that
    either succeeds or propagates an I/O failure. */
module Wrappers {

  datatype Option<+T> = None | Some(value: T)

  datatype Result<+T, +E> = Ok(value: T) | Err(error: E)
}
