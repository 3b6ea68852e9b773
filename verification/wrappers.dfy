/** Optional values. `None` is used throughout the model for "the supplied
    random draws ran out before the operation could finish". */
module Wrappers {

  datatype Option<+T> = None | Some(value: T)
}
