/** The optional value used wherever the page may find nothing. */
module Wrappers {
  datatype Option<+T> = None | Some(value: T)
}
