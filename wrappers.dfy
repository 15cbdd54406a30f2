/** Optional values, standing for Python's `None` and for the end-of-list
    sentinels the tagger substitutes. */
module Wrappers {
  datatype Option<T> = None | Some(value: T)
}
