/** The optional values that the components share. */
module Wrappers {
  datatype Option<+T> = None | Some(value: T)
}
