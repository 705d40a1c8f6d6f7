/** Optional values: the model's stand-in for JavaScript's `null`. */
module Wrappers {

  /** `None` plays the role of `null`; `Some(v)` a present value. */
  datatype Option<+T> = None | Some(value: T)
}
