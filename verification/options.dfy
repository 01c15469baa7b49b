/** An optional value: `None` stands for JavaScript's `undefined`/`null` or for a throw. */
module Options {
  datatype Option<+T> = None | Some(value: T)
}
