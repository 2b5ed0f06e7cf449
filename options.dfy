/** An optional value, for the places where the games return None. */
module Options {
  datatype Option<T> = None | Some(value: T)
}
