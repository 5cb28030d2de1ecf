/** The optional-value datatype used wherever the source writes `T | null`
    or `field?: T`. */
module Wrappers {

  datatype Option<+T> = None | Some(value: T)
}
