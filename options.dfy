/** The usual optional-value datatype, for values JavaScript leaves `undefined` or `null`. */
module Options {

  datatype Option<+T> = None | Some(value: T)
}
