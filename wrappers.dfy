/** Optional values: `None` stands for a JavaScript `undefined` or `null` the source tests for. */
module Wrappers {

  datatype Option<T> = None | Some(value: T)
}
