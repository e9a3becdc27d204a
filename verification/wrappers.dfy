/** Optional values: the model's reading of Python's `None`. */
module Wrappers {

  datatype Option<+T> = None | Some(value: T)
}
