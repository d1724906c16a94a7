/** Optional values: a decoder or a lookup that can fail returns an Option. */
module Wrappers {
  datatype Option<+T> = None | Some(value: T)
}
