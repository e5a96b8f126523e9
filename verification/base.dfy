/** Small shared building blocks. */
module Base {

  /** An optional value: a lookup that may miss, a parse that may fail. */
  datatype Option<+T> = None | Some(value: T)
}
