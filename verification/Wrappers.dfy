/** Optional values, for the source's `None` and `undefined`. */
module Wrappers {
  datatype Option<+T> = None | Some(value: T)
}
