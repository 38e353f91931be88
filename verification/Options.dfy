/** The optional-value type that the models share, and a fact about maps. */
module Options {
  datatype Option<+T> = None | Some(value: T)

  lemma KeyOf<K, V>(m: map<K, V>, v: V) returns (k: K)
    requires v in m.Values
    ensures k in m && m[k] == v
  {
    k :| k in m && m[k] == v;
  }
}
