/** Optional values: the model's stand-in for a JavaScript `null` or an absent property. */
module Wrappers {

  datatype Option<+T> = None | Some(value: T)
}
