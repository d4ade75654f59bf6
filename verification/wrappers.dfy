/** The optional-value datatype used throughout the tokenizer model. */
module Wrappers {

  /** `None` stands for the source's `null` (no match, no token, discard). */
  datatype Option<+T> = None | Some(value: T)
}
