/** Optional values: a missing cell, an unmatched pattern or an undefined figure. */
module Wrappers {

  datatype Option<+T> = None | Some(value: T)

}
