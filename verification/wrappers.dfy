/** Option: the model's stand-in for `undefined` / `null` results of the source. */
module Wrappers {

  datatype Option<+T> = None | Some(value: T)
}
