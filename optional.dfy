/** The optional value used wherever the source has `undefined` or SQL `NULL`. */
module Optional {
  datatype Option<+T> = None | Some(value: T)
}
