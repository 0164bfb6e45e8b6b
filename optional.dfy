/** The absent-or-present value used for Python's `None` and `dict.get` lookups. */
module Optional {

  datatype Option<+T> = None | Some(value: T)

}
