/** The Some/None type used where the source returns a null pointer or leaves a value undefined. */
module Options {
  datatype Option<+T> = None | Some(value: T)
}
