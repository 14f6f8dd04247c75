/** An optional value, as the source marks by an invalid block number, a null pointer or a flag. */
module Options {
  datatype Option<T> = None | Some(value: T)
}
