/** The optional-value datatype used for nullable pointers and search results. */
module Wrappers {

  /** `None` stands for a null pointer or an absent result. */
  datatype Option<+T> = None | Some(value: T)
}
