/** The Option datatype shared by the modules of this project. */
module Wrappers {

  /** `None` stands for JavaScript's `null` (or an absent value). */
  datatype Option<+T> = None | Some(value: T)
}
