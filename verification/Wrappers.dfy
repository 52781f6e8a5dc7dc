/** Values that may be missing, and results that may be errors. */
module Wrappers {
  datatype Option<+T> = None | Some(value: T)

  /** The exceptions of the programs that are modelled. */
  datatype Error = ValueError(message: string) | PortError(message: string) | AssertionError

  datatype Result<+T> = Ok(value: T) | Err(error: Error)
}
