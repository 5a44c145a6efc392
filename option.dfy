/** A nullable reference to a block (`BlockScript` or `null`), as a value. */
module Opt {
  datatype Option<+T> = None | Some(value: T)
}
