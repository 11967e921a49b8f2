/** The usual optional-value wrapper, used for JavaScript's null / undefined / absent. */
module Options {
  datatype Option<+T> = None | Some(value: T)
}
