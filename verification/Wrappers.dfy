/** The option type shared by every module: `None` stands for JavaScript's `undefined`. */
module Wrappers {
  datatype Option<+T> = None | Some(value: T)
}
