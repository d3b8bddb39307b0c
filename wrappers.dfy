/** Optional values, standing for Python's `None`-or-value returns and `dict.get`. */
module Wrappers {

  datatype Option<+T> = None | Some(value: T)
}
