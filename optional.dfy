/** The conventional Some/None datatype, standing in for Swift optionals. */
module Optional {
  datatype Option<+T> = None | Some(value: T)
}
