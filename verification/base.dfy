/** Small shared vocabulary: an optional value, and Python's truthiness of an
    optional name (`None` and `""` are both falsy). */
module Base {

  datatype Option<+T> = None | Some(value: T) {

    /** The wrapped value, or `default` when there is none (Python's `d.get(k, default)`). */
    function GetOr(default: T): T {
      match this
      case Some(v) => v
      case None => default
    }
  }

  /** Python's `if name:` for a value that is either `None` or a string. */
  predicate Truthy(o: Option<seq<char>>) {
    o.Some? && |o.value| > 0
  }
}
