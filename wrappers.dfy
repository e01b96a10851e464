/** The optional values of the catalog: a JavaScript value that may be
    `null`/`undefined` is `None`, a present value is `Some`. */
module Wrappers {
  datatype Option<+T> = None | Some(value: T)
}
