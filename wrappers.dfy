/** The optional value used wherever a lookup can find nothing or a parse can fail. */
module Wrappers {
  datatype Option<+T> = None | Some(value: T)
}
