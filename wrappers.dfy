/** The optional value used for "not found" and for an omitted argument. */
module Wrappers {
  datatype Option<+T> = None | Some(value: T)
}
