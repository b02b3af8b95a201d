/** The optional value used wherever the crawler gets back "something or None". */
module Wrappers {
  datatype Option<+T> = None | Some(value: T)
}
