/** Optional values, for JavaScript's `undefined` / `null` and for failed lookups. */
module Wrappers {

  datatype Option<+T> = None | Some(value: T)
}
