/** The absent-or-present value used by every decoder in this model. */
module Options {

  datatype Option<+T> = None | Some(value: T)

}
