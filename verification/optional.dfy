/** The conventional optional value, used for `null`/`undefined` fields and
    for searches that may find nothing. */
module Optional {

  datatype Option<+T> = None | Some(value: T)
}
