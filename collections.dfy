/** Small facts about sequences shared by the ledger modules. */
module Collections {
  /** No element occurs twice: the key order of a JavaScript `Map`, or a deduplicated list. */
  predicate Distinct<T(==)>(s: seq<T>)
  {
    forall i, j | 0 <= i < j < |s| :: s[i] != s[j]
  }
}
