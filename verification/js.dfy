/** JavaScript value semantics the handlers rely on: optional headers, request
    body fields that may be absent (`undefined`), `null` or a string, and the
    truthiness test behind `!x` and `x || y`. */
module Js {

  /** A value that may be missing (an HTTP header, a nullable column). */
  datatype Option<+T> = None | Some(value: T) {
    function GetOr(default: T): T {
      match this
      case Some(v) => v
      case None => default
    }
  }

  /** A field of a parsed JSON request body. Non-string JSON values (numbers,
      booleans, arrays) are not part of this model. */
  datatype Field = Undefined | Null | Str(s: string)

  /** `!!f` in JavaScript: only a non-empty string is truthy. */
  predicate Truthy(f: Field) {
    f.Str? && f.s != ""
  }

  /** `f || fallback`. */
  function Or(f: Field, fallback: string): (r: string)
    ensures Truthy(f) ==> f.Str? && r == f.s
    ensures !Truthy(f) ==> r == fallback
  {
    if Truthy(f) then f.s else fallback
  }

  /** `f !== undefined ? f : current` for a nullable column: `null` clears it,
      a string (even the empty one) replaces it. */
  function UnlessUndefined(f: Field, current: Option<string>): (r: Option<string>)
    ensures f.Undefined? ==> r == current
    ensures f.Null? ==> r == None
    ensures f.Str? ==> r == Some(f.s)
  {
    match f
    case Undefined => current
    case Null => None
    case Str(s) => Some(s)
  }

  /** Truthiness of an optional header value (`undefined` or `""` is falsy). */
  predicate Present(h: Option<string>) {
    h.Some? && h.value != ""
  }
}
