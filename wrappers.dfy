/** The optional value used wherever the extension skips something instead of failing. */
module Wrappers {

  datatype Option<+T> = None | Some(value: T)

}
