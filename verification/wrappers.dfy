/** The optional value used for lookups (`Array.prototype.find`) and for
    server replies that may or may not carry a row. */
module Wrappers {

  datatype Option<+T> = None | Some(value: T)
}
