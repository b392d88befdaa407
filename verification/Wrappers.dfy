/** The usual optional value: a pointer that may be NULL, a position that may be npos. */
module Wrappers {
  datatype Option<+T> = None | Some(value: T)
}
