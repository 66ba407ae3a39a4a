/** The optional value used where the program passes `None` or a value. */
module Maybe {

  datatype Option<T> = None | Some(value: T)

}
