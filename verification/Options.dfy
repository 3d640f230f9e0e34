/** An optional value, for a null pointer or an exception of the code. */
module Options {

  datatype Option<T> = None | Some(value: T)
}
