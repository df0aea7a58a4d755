/** Python's `None` next to a value, for settings that may be absent or null. */
module Optional {

  datatype Option<+T> = None | Some(value: T)

}
