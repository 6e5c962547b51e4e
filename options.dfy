/** The optional value returned by `pop`, `dequeue` and the searches of the containers. */
module Options {
  datatype Option<T> = None | Some(value: T)
}
