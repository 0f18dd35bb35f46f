/** The optional values shared by every model of this project. */
module Options {

  datatype Option<+T> = None | Some(value: T)

}
