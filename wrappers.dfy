/** Optional values: what the JavaScript source expresses with `null`/`undefined`. */
module Wrappers {

  datatype Option<+T> = None | Some(value: T)
}
