/** An optional value, used for out-parameters the source may leave unwritten
    and for library calls that return NULL on failure. */
module Options {

  datatype Option<+T> = None | Some(value: T)

}
