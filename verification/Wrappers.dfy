module Wrappers {
  /** A value that may be missing: a null pointer, or the result of a call that failed. */
  datatype Option<T> = None | Some(value: T)
}
