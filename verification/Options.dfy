/** A value that may be missing: a null pointer or an empty `std::optional`. */
module Options {
  datatype Option<+T> = None | Some(value: T)
}
