/** The absent-or-present wrapper used throughout the model: a missing
    dictionary key, a missing keyword argument, a thread with no task. */
module Options {

  datatype Option<+T> = None | Some(value: T) {

    /** What a lookup with a fallback yields, as `d.get(k, default)` does:
        the held value, else `default`. */
    function GetOr(default: T): T {
      if Some? then value else default
    }
  }
}
