/** Small failure-carrying datatypes shared by the rest of the model. */
module Wrappers {

  /** A value that may be absent (JavaScript `null`/`undefined`). */
  datatype Option<+T> = None | Some(value: T)

  /** Outcome of a validated registry operation: success, or the message shown to the user. */
  datatype Status = Ok | Err(message: string)
}
