// A value that may be absent: None, null, undefined or a failed lookup.
module Wrappers {
  datatype Option<T> = None | Some(value: T)
}
