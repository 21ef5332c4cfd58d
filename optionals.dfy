/** The nullable column or missing row of the source: a value or nothing. */
module Optionals {

  datatype Option<+T> = None | Some(value: T)
}
