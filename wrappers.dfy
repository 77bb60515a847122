/** Optional values: a JavaScript `undefined` (or a missing JSON field) is `None`. */
module Wrappers {
  datatype Option<T> = None | Some(value: T)
}
