/** Small facts about Dafny's sets and maps that both sorts rely on. */
module Collections {

  /** Some element of a non-empty set, for proofs that take one element out. */
  lemma ElementOf<T>(s: set<T>) returns (x: T)
    requires s != {}
    ensures x in s
  {
    x :| x in s;
  }

  /** Removing a present key takes exactly that key out of the map. */
  lemma RemoveKey<K, V>(m: map<K, V>, k: K)
    requires k in m
    ensures (m - {k}).Keys == m.Keys - {k}
    ensures |m - {k}| == |m| - 1
  {
  }
}
