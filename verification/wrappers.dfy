/** Optional values: the model's stand-in for Python's `None`. */
module Wrappers {

  /** `None` is an absent value; `Some(v)` carries `v`. */
  datatype Option<+T> = None | Some(value: T)
}
