/** Optional values: Go's pointer-or-nil fields and its `value, err` pairs. */
module Wrappers {

  datatype Option<+T> = None | Some(value: T)
}
