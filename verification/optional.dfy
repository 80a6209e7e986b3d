/** An optional value: the model's stand-in for a JavaScript property that may be
    `undefined` or `null`. */
module Optional {

  datatype Option<+T> = None | Some(value: T)
}
