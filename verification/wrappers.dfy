/** A value that may be absent: JavaScript's `null` where the component uses it. */
module Wrappers {
  datatype Option<+T> = None | Some(value: T)
}
