/** The optional value used for inputs that may fail to decode or parse,
    and for the envelope's `error` field, which Go omits when it is empty. */
module Wrappers {

  datatype Option<+T> = None | Some(value: T)

}
