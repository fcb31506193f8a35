/** A value that may be missing: a null pointer, or the answer of a call that failed. */
module Wrappers {
  datatype Option<+T> = None | Some(value: T)
}
