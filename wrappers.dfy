/** The Option type used wherever the application holds `null` or a JavaScript
    `NaN`: `None` is the absent value, `Some(v)` a present one. */
module Wrappers {

  datatype Option<+T> = None | Some(value: T)
}
