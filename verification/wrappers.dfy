/** Python's `None`-or-value, as returned for a named group that took no part in a match. */
module Wrappers {
  datatype Option<+T> = None | Some(value: T)
}
