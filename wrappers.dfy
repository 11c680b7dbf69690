/** Failure-compatible wrappers shared by the model: an optional value (a JS
    value that may be `undefined`/`null`), a success-or-error result (a
    returned value or a thrown `Error`), and a pass-or-fail outcome. */
module Wrappers {

  datatype Option<+T> = None | Some(value: T)

  datatype Result<+R, +E> = Success(value: R) | Failure(error: E)

  datatype Outcome<+E> = Pass | Fail(error: E)
}
