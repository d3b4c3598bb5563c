/** A value that may be absent, as the source's second `ok` results and nil pointers say. */
module Wrappers {
  datatype Option<+T> = None | Some(value: T)
}
