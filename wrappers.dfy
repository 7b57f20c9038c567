/** Optional values, standing for the JavaScript variables that hold either a value or null. */
module Wrappers {
  datatype Option<+T> = None | Some(value: T)
}
