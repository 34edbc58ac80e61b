/** The optional value used wherever the source returns `None`, raises an
    exception that is caught, or simply does nothing. */
module Options {

  datatype Option<+T> = None | Some(value: T)
}
