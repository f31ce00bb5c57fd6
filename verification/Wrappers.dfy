/** A value or nothing; nothing is how an operation that panics, and so never returns, is reported. */
module Wrappers {
  datatype Option<+T> = None | Some(value: T)
}
