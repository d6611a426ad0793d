/** The optional-value datatype used for every JavaScript field that may be
    `undefined`, and for opaque parsers that may throw. */
module Wrappers {

  datatype Option<+T> = None | Some(value: T) {

    /** The value, or `default` when the field is undefined (JavaScript `x ?? default`). */
    function GetOr(default: T): T {
      match this
      case Some(v) => v
      case None => default
    }
  }

  /** JavaScript truthiness of a `string | undefined` field: defined and not
      the empty string. */
  predicate Present(s: Option<string>)
  {
    s.Some? && s.value != ""
  }
}
