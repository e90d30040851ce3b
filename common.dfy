/** Python's `None`-or-value results. */
module Common {

  datatype Option<T> = None | Some(value: T) {

    /** `d.get(k, default)`-style fallback */
    function GetOr(default: T): T {
      if Some? then value else default
    }
  }

  /** Concatenation regroups. */
  lemma ConcatAssoc<T>(a: seq<T>, b: seq<T>, c: seq<T>)
    ensures (a + b) + c == a + (b + c)
  {
  }
}
