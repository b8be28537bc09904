/** Generic helpers: the optional value used wherever the source has a null
    reference or a failed lookup, and one fact about concatenation. */
module Wrappers {

  datatype Option<+T> = None | Some(value: T)

  /** Concatenation regroups freely; stated once so that loops appending to
      a sequence need not rediscover it. */
  lemma AppendAssociative<T>(a: seq<T>, b: seq<T>, c: seq<T>)
    ensures a + b + c == a + (b + c)
  {
  }
}
