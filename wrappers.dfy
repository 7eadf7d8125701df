/** Optional values: a request field that was not sent, a column that is NULL. */
module Wrappers {

  datatype Option<+T> = None | Some(value: T)
}
