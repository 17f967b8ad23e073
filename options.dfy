/** The optional value used throughout the model: a document that may be absent,
    a field that may be unset, a regular-expression match that may fail. */
module Options {
  datatype Option<T> = None | Some(value: T)
}
