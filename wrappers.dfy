/** Error-carrying values shared by the model: Go's `(T, error)` returns and bare `error` returns. */
module Wrappers {

  /** An optional value. */
  datatype Option<+T> = None | Some(value: T)

  /** A value or the message of the Go `error` that replaced it. */
  datatype Result<+T> = Ok(value: T) | Err(error: string)

  /** A Go `error` return: `nil` (Pass) or an error with its message (Fail). */
  datatype Outcome = Pass | Fail(error: string)
}
