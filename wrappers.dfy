/** The optional-value datatype used for the lookups and edits that can fail. */
module Wrappers {

  /** `None` stands for the Python exception (IndexError, KeyError, TypeError)
      that the corresponding operation raises; `Some` carries its result. */
  datatype Option<+T> = None | Some(value: T)
}
