/** The optional value used wherever the source uses `None` for "absent". */
module Wrappers {

  datatype Option<+T> = None | Some(value: T)
}
