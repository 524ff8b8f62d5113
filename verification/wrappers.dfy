/** Optional values and results with a message, for the script's `undefined` and thrown errors. */
module Wrappers {

  datatype Option<+T> = None | Some(value: T)

  /** A value, or the message of the `Error` the script would have thrown. */
  datatype Result<+T> = Success(value: T) | Failure(message: string)
}
