/** The optional-value wrapper used for every `?:` field and every `undefined` result in the model. */
module Wrappers {

  datatype Option<+T> = None | Some(value: T) {

    /** The value, or `default` when absent (the `x ?? default` of the source). */
    function GetOr(default: T): T {
      match this
      case Some(v) => v
      case None => default
    }
  }
}
