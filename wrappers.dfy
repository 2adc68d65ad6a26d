/** Optional values: an absent header, an unset environment variable, an
    oracle call that threw. */
module Wrappers {

  datatype Option<+T> = None | Some(value: T)
}
