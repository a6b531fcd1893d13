/** Result types shared by all modules. */
module Wrappers {
  datatype Option<+T> = None | Some(value: T)

  /** A Go call that returns a value or a non-nil error; `error` is the error's text. */
  datatype Result<+T> = Ok(value: T) | Err(error: string)

  /** A Go call that returns only an error. */
  datatype Outcome = Nil | Error(error: string)
}
