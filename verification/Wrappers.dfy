/** A value that may be missing: Python's `None`, or a call that raises. */
module Wrappers {

  datatype Option<+T> = None | Some(value: T)
}
