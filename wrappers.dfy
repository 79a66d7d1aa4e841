/** A value that may be absent: a missing table entry, an unmatched path, no returned block. */
module Wrappers {
  datatype Option<T> = None | Some(value: T)
}
