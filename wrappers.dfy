/** The optional value used wherever the source raises and catches, or may find nothing. */
module Wrappers {

  datatype Option<+T> = None | Some(value: T)
}
