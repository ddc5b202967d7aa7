/** The absent-or-present value used for Go's (value, error) and (value, ok) results. */
module Wrappers {
  datatype Option<+T> = None | Some(value: T)
}
