/** The optional value used wherever the source returns a value together with an ok flag. */
module Wrappers {
  datatype Option<+T> = None | Some(value: T)
}
