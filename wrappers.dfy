/** Optional values: `None` stands for a value that JavaScript treats as falsy. */
module Wrappers {

  datatype Option<+T> = None | Some(value: T)
}
