/** The optional value used wherever the scripts can fail (Python raising ValueError). */
module Wrappers {
  datatype Option<+T> = None | Some(value: T)
}
