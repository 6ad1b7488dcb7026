/** A missing table cell.  pandas represents it as NaN; here it is `None`. */
module Wrappers {

  datatype Option<+T> = None | Some(value: T)
}
