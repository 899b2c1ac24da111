/** Option, Result and the exceptions the pipeline raises. */
module Wrappers {

  datatype Option<+T> = None | Some(value: T)

  /** The Python exceptions that leave the ETL functions. */
  datatype Error =
    | ValueError(message: string)  // an empty (or absent) input was rejected
    | IndexError                   // a track listed no artist, so `artists[0]` failed

  datatype Result<+T> = Ok(value: T) | Err(error: Error)
}
