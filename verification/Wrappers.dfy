/** Optional values, used where the program has a pointer that may be NULL or a call that may fail. */
module Wrappers {
  datatype Option<+T> = None | Some(value: T)
}
