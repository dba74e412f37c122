/** Optional values, standing in for the NULL pointers the C code returns and stores. */
module Wrappers {

  datatype Option<+T> = None | Some(value: T)
}
