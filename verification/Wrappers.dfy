/** Optional values, standing for the source's null pointers and failed lookups. */
module Wrappers {
  datatype Option<+T> = None | Some(value: T)
}
