/** The optional value used for regular-expression captures that may be absent. */
module Wrappers {
  datatype Option<+T> = None | Some(value: T)
}
