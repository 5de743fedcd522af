/** The absent-or-present value used for JavaScript's `null` and for omitted parameters. */
module Wrappers {

  datatype Option<+T> = None | Some(value: T) {

    /** The value if present, `default` otherwise (a parameter's default value). */
    function GetOr(default: T): T {
      match this
      case Some(v) => v
      case None => default
    }
  }
}
