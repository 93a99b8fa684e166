/** The optional-value type shared by every module of the model. */
module Optional {

  /** A value that may be missing: a JavaScript `undefined`/`null`, or no selection. */
  datatype Option<+T> = None | Some(value: T)
}
