/** A value that may be absent: an unattached ref or a missing material. */
module Wrappers {
  datatype Option<+T> = None | Some(value: T)
}
