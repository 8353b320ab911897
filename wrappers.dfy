/** Optional values: a Python name that may still be unbound, a first index that may not exist. */
module Wrappers {

  datatype Option<+T> = None | Some(value: T)
}
