/** An optional value: the model's stand-in for PHP's null. */
module Optional {

  datatype Option<+T> = None | Some(value: T)

}
