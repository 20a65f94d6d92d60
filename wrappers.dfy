/** Optional values, standing in for the nullable pointers of the C source. */
module Wrappers {
  datatype Option<+T> = None | Some(value: T)
}
