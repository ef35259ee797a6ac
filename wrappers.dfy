/** Optional values: `None` stands for JavaScript's `undefined` (or SQL NULL). */
module Wrappers {
  datatype Option<+T> = None | Some(value: T)
}
