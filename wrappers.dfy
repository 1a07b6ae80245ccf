/** Optional values: a parse that may fail, a file that may not open. */
module Wrappers {
  datatype Option<+T> = None | Some(value: T)
}
