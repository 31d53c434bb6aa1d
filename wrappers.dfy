/** The conventional optional value, used where the source yields `undefined`
    (a missing map entry, `Array.prototype.find` without a hit) or `null`. */
module Wrappers {

  datatype Option<+T> = None | Some(value: T)
}
