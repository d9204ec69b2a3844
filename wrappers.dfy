/** A value that may be missing: pandas' NaN / NaT cells. */
module Wrappers {

  datatype Option<+T> = None | Some(value: T)
}
