/** Optional values: the model's stand-in for JavaScript's `null`/`undefined`
    and Python's `None`. */
module Wrappers {
  datatype Option<+T> = None | Some(value: T)
}
