/** Optional values, used for absent message fields and failed matches. */
module Wrappers {
  datatype Option<+T> = None | Some(value: T)
}
