/** Optional values: a neighbour that may be missing, a quotient that may be undefined. */
module Wrappers {
  datatype Option<+T> = None | Some(value: T)
}
