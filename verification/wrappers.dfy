/** Optional values: a query parameter that may be absent, a row that may not exist. */
module Wrappers {

  datatype Option<+T> = None | Some(value: T) {
    function GetOr(default: T): T {
      match this
      case Some(v) => v
      case None => default
    }
  }

  /** A query parameter that filters: present and not empty (an empty one counts as absent). */
  predicate Given(p: Option<string>) {
    p.Some? && p.value != ""
  }
}
