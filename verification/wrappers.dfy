/** The optional value used for inputs that may be empty or unparseable. */
module Wrappers {

  /** `None` stands for an absent value: an empty input, an invalid date. */
  datatype Option<+T> = None | Some(value: T)
}
