/** The "value or nothing" results the parking lot returns where Python returns None. */
module Optional {
  datatype Option<+T> = None | Some(value: T)
}
