/** General-purpose wrapper types shared by the modules of the model. */
module Wrappers {

  /** A value that may be absent: `None` stands for Python's `None`. */
  datatype Option<T> = None | Some(value: T)
}
