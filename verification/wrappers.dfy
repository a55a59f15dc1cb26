/** Failure-carrying datatypes shared by the other modules: an optional
    value (Python's `None`), a value-or-error result (a raised exception
    made explicit), and a pass-or-error outcome for checks that return
    nothing on success. */
module Wrappers {

  datatype Option<+T> = None | Some(value: T)

  datatype Result<+R, +E> = Success(value: R) | Failure(error: E)

  datatype Outcome<+E> = Pass | Fail(error: E)
}
