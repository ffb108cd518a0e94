/** The stock optional value, standing for a pointer that may be null or an iterator that may be the end. */
module Options {
  datatype Option<+T> = None | Some(value: T)
}
