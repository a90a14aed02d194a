/** Small shared vocabulary: the optional value returned by lookups and pops. */
module Common {

  /** `std::optional<T>`: either nothing or a value. */
  datatype Option<T> = None | Some(value: T)

  /** Callbacks, tasks and jobs are opaque: the model identifies each by a number. */
  type CallbackId = nat
}
