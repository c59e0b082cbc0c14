/** Optional values: a user prompt that may be cancelled, a storage slot that may be empty. */
module Wrappers {

  datatype Option<+T> = None | Some(value: T)
}
