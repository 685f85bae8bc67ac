/** Optional values, used for searches that may find nothing and for parses that may fail. */
module Wrappers {
  datatype Option<+T> = None | Some(value: T)
}
