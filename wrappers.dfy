/** Optional values, used where the source returns `string::npos` or reports a missing file. */
module Wrappers {
  datatype Option<+T> = None | Some(value: T)
}
