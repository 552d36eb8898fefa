/** Optional values, used wherever the modelled code raises or a lookup can miss. */
module Wrappers {

  datatype Option<+T> = None | Some(value: T)
}
