/** Optional values, used for the source's `undefined` fields and for partial parses. */
module Wrappers {

  datatype Option<+T> = None | Some(value: T)
}
