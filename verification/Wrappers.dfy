/** Values that may be absent, and the sizes of maps. */
module Wrappers {
  datatype Option<+T> = None | Some(value: T)

  // How the size of a map changes with one key.
  lemma SizeAdd<K, V>(m: map<K, V>, k: K, v: V)
    requires k !in m
    ensures |m[k := v]| == |m| + 1
  {
    assert m[k := v].Keys == m.Keys + {k};
  }

  lemma SizeDrop<K, V>(m: map<K, V>, k: K)
    requires k in m
    ensures |m - {k}| == |m| - 1
  {
    assert (m - {k}).Keys == m.Keys - {k};
  }

  lemma SizeMove<K, V>(m: map<K, V>, k: K, l: K, v: V)
    requires k in m && l !in m - {k}
    ensures |(m - {k})[l := v]| == |m|
  {
    SizeDrop(m, k);
    SizeAdd(m - {k}, l, v);
  }
}
