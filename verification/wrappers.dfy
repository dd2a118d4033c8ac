/** Optional values: the model's stand-in for Python's `None`. */
module Wrappers {

  datatype Option<+T> = None | Some(value: T) {

    /** The value when present, the given default otherwise. */
    function GetOr(default: T): T {
      match this
      case Some(v) => v
      case None => default
    }
  }

  /** Python truthiness of an optional string: `None` and `""` are both false. */
  predicate Truthy(o: Option<string>): (t: bool)
    ensures t <==> o != None && o != Some("")
  {
    o.Some? && o.value != ""
  }
}
