/** Small shared datatypes and sequence facts. */
module Common {

  /** A value that may be absent, as a Python dictionary key that may be missing. */
  datatype Option<+T> = None | Some(value: T)

  /** A non-empty sequence is its front followed by its last element. */
  lemma SplitLast<T>(s: seq<T>)
    requires s != []
    ensures s[..|s| - 1] + [s[|s| - 1]] == s
  {
  }

  /** Concatenation is associative. */
  lemma ConcatAssoc<T>(p: seq<T>, q: seq<T>, r: seq<T>)
    ensures (p + q) + r == p + (q + r)
  {
  }
}
