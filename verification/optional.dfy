/** The Some/None wrapper used wherever the script returns `None`
    or a value: probe results, column reads, optional output fields. */
module Optional {

  datatype Option<+T> = None | Some(value: T)
}
