/** The optional values that the source keeps in `Option` cells. */
module Wrappers {
  datatype Option<+T> = None | Some(value: T)
}
