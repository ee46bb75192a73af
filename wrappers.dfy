/** The optional value used throughout the model: a pandas cell that holds a
    missing value (pd.NA, None or NaN), an absent XML element, an unset
    keyword argument. */
module Wrappers {

  datatype Option<+T> = None | Some(value: T) {

    /** The value, or `default` when there is none. */
    function GetOr(default: T): T {
      match this
      case Some(v) => v
      case None => default
    }
  }
}
