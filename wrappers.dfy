/** Optional values, for the nullable fields of the pages' state. */
module Wrappers {

  datatype Option<T> = None | Some(value: T)
}
