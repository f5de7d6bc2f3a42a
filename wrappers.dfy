/** The optional value used for every store lookup that may find nothing. */
module Wrappers {
  datatype Option<+T> = None | Some(value: T)
}
