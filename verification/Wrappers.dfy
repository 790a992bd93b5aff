/** The optional values that stand for null pointers and for the error returns of the port layer. */
module Wrappers {
  datatype Option<+T> = None | Some(value: T)
}
