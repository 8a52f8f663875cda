/** An optional value: an empty spreadsheet cell, an option the device state
    has not seen set. */
module Optional {

  datatype Option<+T> = None | Some(value: T)
}
