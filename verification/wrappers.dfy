/** The optional-value datatype used for everything the dashboard may fail to parse. */
module Wrappers {

  /** `None` stands for Python's `None` and for pandas' `NaT`. */
  datatype Option<+T> = None | Some(value: T)
}
