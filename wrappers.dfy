/** Option, used wherever the JavaScript source returns `undefined` or `NaN`
    instead of producing a value. */
module Wrappers {

  datatype Option<+T> = None | Some(value: T)
}
