/** The optional result used where the source returns `std::optional`. */
module Wrappers {

  datatype Option<+T> = None | Some(value: T)
}
