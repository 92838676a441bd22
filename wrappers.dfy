/** Optional values: `None` stands for JavaScript's `null`/`undefined` and for a failed operation. */
module Wrappers {
  datatype Option<+T> = None | Some(value: T)
}
