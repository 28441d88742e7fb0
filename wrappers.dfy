/** Python return conventions used throughout the model: a value that may be
    `None`, and the outcome of a call that may raise one of the exceptions the
    core raises. */
module Wrappers {

  datatype Option<+T> = None | Some(value: T)

  /** The exceptions the modelled code raises or runs into. */
  datatype Error =
    | ValueError(message: string)
    | KeyError
    | TypeError(message: string)
    | IndexError

  datatype Result<+T> = Ok(value: T) | Err(error: Error)
}
