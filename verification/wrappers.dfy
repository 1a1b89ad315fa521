/** Failure-compatible wrappers shared by the other modules. */
module Wrappers {

  /** An optional value: JavaScript's `undefined` (or a value of the wrong type) is `None`. */
  datatype Option<+T> = None | Some(value: T)

  /** The value of an operation that can throw: `Failure` carries the thrown error's message. */
  datatype Result<+T> = Success(value: T) | Failure(error: string)
}
