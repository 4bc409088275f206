/**
 * The few JavaScript value conventions both stores rely on: a value that may be
 * null or undefined, the truthiness test `if (x)`, the default operator `x || d`,
 * and the outcome of an operation that either returns or throws.
 */
module Js {

  /** A value that may be absent (JavaScript `null` or `undefined`). */
  datatype Option<+T> = None | Some(value: T)

  /** What an async operation produces: a returned value, or a thrown error's message. */
  datatype Result<+T> = Ok(value: T) | Err(message: string)

  /** `if (s)` on an optional string: absent and the empty string are both falsy. */
  predicate Truthy(s: Option<string>)
  {
    s.Some? && s.value != ""
  }

  /** `s || fallback` for an optional string. */
  function OrElse(s: Option<string>, fallback: string): (r: string)
    ensures Truthy(s) ==> r == s.value
    ensures !Truthy(s) ==> r == fallback
    ensures r != "" <== fallback != ""
  {
    if Truthy(s) then s.value else fallback
  }
}
