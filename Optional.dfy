/** The "value or nothing" wrapper shared by every module of the model: a regular
    expression that does not match, a missing list index, a call that throws. */
module Optional {
  datatype Option<+T> = None | Some(value: T)
}
