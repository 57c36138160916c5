/** The optional value both the upgrade path and the license lookup use for "nil or an error". */
module Wrappers {
  datatype Option<T> = None | Some(value: T)
}
