/** The Option datatype: `None` stands for a C null pointer. */
module Wrappers {
  datatype Option<+T> = None | Some(value: T)
}
