/** Option, the value-or-nothing the model uses for Go's nil-or-value
    results and its nil-or-error returns. */
module Wrappers {

  datatype Option<+T> = None | Some(value: T)
}
