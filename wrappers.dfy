/** Optional values: an attribute that may be absent, a reading that may not parse. */
module Wrappers {

  datatype Option<+T> = None | Some(value: T)
}
