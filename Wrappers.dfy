/** Optional values, standing for Python's `None` and the values that are not `None`. */
module Wrappers {
  datatype Option<+T> = None | Some(value: T)
}
