/** A value that may be absent: a C pointer that may be NULL, or the result of
    an operation that may fail. */
module Wrappers {
  datatype Option<+T> = None | Some(value: T)
}
