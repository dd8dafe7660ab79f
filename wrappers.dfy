/** Optional values, standing in for the C code's nullable pointers and "not found" results. */
module Wrappers {

  datatype Option<+T> = None | Some(value: T)

}
