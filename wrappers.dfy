/** Optional values: a page that is not drawn, a settle animation not yet started. */
module Wrappers {

  datatype Option<+T> = None | Some(value: T)
}
