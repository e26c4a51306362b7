/** The optional value used wherever the source may produce Python's `None`. */
module Wrappers {
  datatype Option<+T> = None | Some(value: T)
}
