/** Optional values: `None` stands for JavaScript's `undefined` where a property is read. */
module Wrappers {
  datatype Option<+T> = None | Some(value: T)
}
