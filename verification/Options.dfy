/** Types shared by the modules of this project. */
module Options {

  datatype Option<+T> = None | Some(value: T)

  /** What an event does to a state: it is not enabled, it panics, or it leads to the next state. */
  datatype Result<+T> = Disabled | Panic | Next(value: T)
}
