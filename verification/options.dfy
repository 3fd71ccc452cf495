/** A value that may be absent: the null case of `e.target.files` that the
    file handler tests for, and optional results elsewhere in the model. */
module Options {

  datatype Option<+T> = None | Some(value: T)
}
