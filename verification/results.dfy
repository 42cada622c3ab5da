/** Failure-carrying wrappers shared by the notation compiler model. */
module Results {

  /** A value that may be absent (a JavaScript `null`/`undefined` or a failed regex match). */
  datatype Option<+T> = None | Some(value: T)

  /** The outcome of a parse step: the parsed value or the message the compiler reports. */
  datatype Result<+T> = Success(value: T) | Failure(error: string)
}
