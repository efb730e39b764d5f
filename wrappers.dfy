/** A value that may be absent, as an optional field of a record is. */
module Wrappers {
  datatype Option<T> = None | Some(value: T)
}
