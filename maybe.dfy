/** An optional value: the model's stand-in for JavaScript's `null`/absent. */
module Maybe {
  datatype Option<T> = None | Some(value: T)
}
