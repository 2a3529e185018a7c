/** A spreadsheet cell that may be empty (a pandas NaN or NaT). */
module Wrappers {

  datatype Option<+T> = None | Some(value: T)
}
