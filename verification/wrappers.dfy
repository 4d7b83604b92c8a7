/** A value that may be missing: the null pointers and failed conversions of the proxy. */
module Wrappers {
  datatype Option<+T> = None | Some(value: T)
}
