/** Failure-compatible wrappers shared by the model. */
module Wrappers {

  /** A value that may be absent: the model's stand-in for JavaScript's `null`/`undefined`. */
  datatype Option<+T> = None | Some(value: T)
}
