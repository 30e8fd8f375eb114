/** Optional values, used where the Go code has a nil pointer or an absent result. */
module Wrappers {

  datatype Option<+T> = None | Some(value: T)
}
