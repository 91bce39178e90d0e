/** A value that may be missing: an absent form field, a row a query did not find. */
module Wrappers {
  datatype Option<+T> = None | Some(value: T)
}
