/** Optional values: a scan payload that parsed or did not, a saved file that decoded or did not. */
module Wrappers {
  datatype Option<+T> = None | Some(value: T)
}
