/** Optional values, used where the source catches an exception or may emit nothing. */
module Wrappers {

  datatype Option<+T> = None | Some(value: T)
}
