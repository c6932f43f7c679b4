/** Optional values: the model's stand-in for the source's `null` and `'-'` markers. */
module Wrappers {

  /** A value that may be absent ("not applicable"). */
  datatype Option<+T> = None | Some(value: T)
}
