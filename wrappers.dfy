/** Optional values, for lookups that may miss and operations that may throw. */
module Wrappers {
  datatype Option<T> = None | Some(value: T)
}
