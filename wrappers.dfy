/** Optional values, standing for JavaScript's `undefined`/`null` alternatives. */
module Wrappers {

  datatype Option<+T> = None | Some(value: T) {
    function GetOr(default: T): T {
      match this
      case Some(v) => v
      case None => default
    }
  }

  /**
   * `s || fallback` for an optional string: the string when it is present and non-empty
   * (truthy), the fallback otherwise.
   */
  function OrElse(s: Option<string>, fallback: string): (r: string)
    ensures s.Some? && s.value != [] ==> r == s.value
    ensures s.None? || s.value == [] ==> r == fallback
  {
    if s.Some? && s.value != [] then s.value else fallback
  }

  /** A present, non-empty string: what `if (s)` accepts. */
  predicate Truthy(s: Option<string>) {
    s.Some? && s.value != []
  }
}
