/** An optional value, as a pointer that may be nil or a second `ok` result stand for one. */
module Wrappers {
  datatype Option<+T> = None | Some(value: T)
}
