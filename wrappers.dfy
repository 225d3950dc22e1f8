/** The optional value used for Python's `None` and for numpy's `inf` sentinel. */
module Wrappers {
  datatype Option<+T> = None | Some(value: T)
}
