/** Option and the error return of a Go function whose only result is an error. */
module Wrappers {

  datatype Option<+T> = None | Some(value: T)

  /** `Pass` stands for a nil error, `Fail(msg)` for an error whose text is `msg`. */
  datatype Outcome = Pass | Fail(msg: string)
}
