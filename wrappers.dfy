/** Optional values: a request field that may be absent, a path parameter that may not be a number. */
module Wrappers {

  datatype Option<+T> = None | Some(value: T)
}
