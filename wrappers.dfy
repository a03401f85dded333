/** Python's `None`-or-value, used wherever the script catches an exception and
    carries on with nothing. */
module Wrappers {

  datatype Option<+T> = None | Some(value: T)

}
