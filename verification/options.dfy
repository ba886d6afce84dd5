/** JavaScript's "value or nothing" (`null` / `undefined`), as a datatype. */
module Options {
  datatype Option<T> = None | Some(value: T)
}
