/** The Some/None datatype used for the model's "no result" cases. */
module Wrappers {

  /** `None` stands for Python's implicit `None` return and for "no loader applies". */
  datatype Option<+T> = None | Some(value: T)
}
