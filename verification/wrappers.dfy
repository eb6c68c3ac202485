/** Optional values, for parsers that may fail and for Go's nil maps. */
module Wrappers {
  datatype Option<+T> = None | Some(value: T)
}
