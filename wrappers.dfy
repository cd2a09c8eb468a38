/** Optional values, used where the source falls back to "nothing found". */
module Wrappers {
  datatype Option<+T> = None | Some(value: T)
}
