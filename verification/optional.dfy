/** The Some/None datatype used for Python's `None` results and `str.find`'s -1. */
module Optional {

  datatype Option<+T> = None | Some(value: T)
}
