/** The optional values the model uses wherever the source returns a null pointer or a failed HRESULT. */
module Options {
  datatype Option<+T> = None | Some(value: T)
}
