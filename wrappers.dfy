/** Optional values, used for "not found" results of the scans and for listings that could not be read. */
module Wrappers {

  datatype Option<+T> = None | Some(value: T)
}
