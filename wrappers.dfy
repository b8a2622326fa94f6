/** A present-or-absent value: Python's `None` becomes `None` here. */
module Wrappers {
  datatype Option<+T> = None | Some(value: T)
}
