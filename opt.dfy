/** An optional value, for the meaning a midpoint row may or may not carry. */
module Opt {
  datatype Option<+T> = None | Some(value: T)
}
