/** The optional and the fallible values the emulator's `Option` and `Result` are modelled with. */
module Options {
  datatype Option<+T> = None | Some(value: T)
  datatype Result<+T, +E> = Ok(value: T) | Error(error: E)
}
