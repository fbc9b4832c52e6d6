/** A value that may be missing: the model's stand-in for a Python conversion
    (`int(...)`, `float(...)`) that either yields a number or raises `ValueError`. */
module Wrappers {

  datatype Option<+T> = None | Some(value: T)
}
