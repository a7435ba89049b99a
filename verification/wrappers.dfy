/** Optional values, used for store lookups and for the optional SPDX key of an entry. */
module Wrappers {

  datatype Option<+T> = None | Some(value: T)
}
