module Wrappers {

  /** The outcome of a platform call that may throw: `None` stands for the thrown error. */
  datatype Option<+T> = None | Some(value: T)

}
