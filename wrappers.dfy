/** An optional value, shared by the modules of this project. */
module Wrappers {

  /** Either no value or one value; `None` models a failed library call. */
  datatype Option<+T> = None | Some(value: T)
}
