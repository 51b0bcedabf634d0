/** A value that may be absent: Java's null, made explicit. */
module Options {
  datatype Option<T> = None | Some(value: T)
}
