/** An optional value: stands for an argument the formula engine may leave out. */
module Wrappers {

  datatype Option<+T> = None | Some(value: T)
}
