/** Optional values, for results the sketch cannot always produce. */
module Wrappers {
  datatype Option<+T> = None | Some(value: T)
}
