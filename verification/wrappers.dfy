/** Optional values and results with an error channel. The translator signals
    "no literal" with `null` and failures with exceptions; the model uses these
    two datatypes for both. */
module Wrappers {

  /** A value that may be absent (a Java `null` return). */
  datatype Option<+T> = None | Some(value: T)

  /** A value, or the error that aborted the computation (a thrown exception). */
  datatype Result<+T, +E> = Ok(value: T) | Err(error: E)
}
