/** The absent-or-present wrapper used throughout the model for JavaScript's
    `undefined` slots, failed parses and missing map entries. */
module Optional {

  datatype Option<+T> = None | Some(value: T) {

    /** Returns the wrapped value, or `default` when there is none. */
    function GetOr(default: T): T {
      match this
      case Some(v) => v
      case None => default
    }
  }
}
