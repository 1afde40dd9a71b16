/** The optional-value wrapper shared by the form and the server model. */
module Optional {

  datatype Option<+T> = None | Some(value: T)
}
