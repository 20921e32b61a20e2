/** Optional values, standing in for PHP's nullable references. */
module Wrappers {

  datatype Option<+T> = None | Some(value: T)
}
