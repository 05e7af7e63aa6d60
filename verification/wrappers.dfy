/** Failure-carrying datatypes shared by every module of the model.
    `Exception` names the Python exceptions the modelled code raises or lets escape. */
module Wrappers {

  datatype Option<+T> = None | Some(value: T)

  datatype Exception =
    | RuntimeError(message: string)
    | ZeroDivisionError
    | IndexError
    | KeyError(key: string)
    | ValueError(message: string)
    | OtherDownloadError

  /** A Python call that either returns a value or raises. */
  datatype Result<+T> = Ok(value: T) | Err(error: Exception)
}
