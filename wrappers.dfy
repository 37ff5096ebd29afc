/** The optional value used for Python's `None` results and raised overflows. */
module Wrappers {
  datatype Option<+T> = None | Some(value: T)
}
