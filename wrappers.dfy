/** Optional values: a PHP value that may be null, a request field that may be absent. */
module Wrappers {

  datatype Option<+T> = None | Some(value: T)

}
