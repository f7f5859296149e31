/**
 * A Python `dict` as the model sees it: key-value pairs kept in insertion
 * order, with membership, subscription and `list(d.values())`.
 */
module OrderedDict {
  import opened Wrappers

  datatype Dict<K, V> = Dict(items: seq<(K, V)>)

  /** The keys, in insertion order. */
  function Keys<K, V>(d: Dict<K, V>): (ks: seq<K>)
    ensures |ks| == |d.items|
    ensures forall i :: 0 <= i < |d.items| ==> ks[i] == d.items[i].0
    decreases |d.items|
  {
    if d.items == [] then [] else [d.items[0].0] + Keys(Dict(d.items[1..]))
  }

  /** `list(d.values())`: the values, in insertion order. */
  function Values<K, V>(d: Dict<K, V>): (vs: seq<V>)
    ensures |vs| == |d.items|
    ensures forall i :: 0 <= i < |d.items| ==> vs[i] == d.items[i].1
    decreases |d.items|
  {
    if d.items == [] then [] else [d.items[0].1] + Values(Dict(d.items[1..]))
  }

  /** A dict never holds the same key twice. */
  ghost predicate UniqueKeys<K, V>(d: Dict<K, V>)
  {
    forall i, j :: 0 <= i < j < |d.items| ==> d.items[i].0 != d.items[j].0
  }

  /** `d[k] if k in d else None`. */
  function Get<K(==), V>(d: Dict<K, V>, k: K): (r: Option<V>)
    ensures r.None? <==> k !in Keys(d)
    ensures r.Some? ==> (k, r.value) in d.items
    decreases |d.items|
  {
    if d.items == [] then None
    else if d.items[0].0 == k then Some(d.items[0].1)
    else
      var rest := Dict(d.items[1..]);
      assert Keys(d) == [d.items[0].0] + Keys(rest);
      Get(rest, k)
  }

  /** In a dict with unique keys, subscription by the key stored at position `i` gives the value stored there. */
  lemma {:induction false} GetAt<K, V>(d: Dict<K, V>, i: nat)
    requires UniqueKeys(d)
    requires i < |d.items|
    ensures Get(d, d.items[i].0) == Some(d.items[i].1)
    decreases i
  {
    if i > 0 {
      var rest := Dict(d.items[1..]);
      assert rest.items[i - 1] == d.items[i];
      GetAt(rest, i - 1);
    }
  }

  /** In a dict with unique keys, a key maps to exactly the value stored beside it. */
  lemma GetIff<K, V>(d: Dict<K, V>, k: K, v: V)
    requires UniqueKeys(d)
    ensures Get(d, k) == Some(v) <==> (k, v) in d.items
  {
    if (k, v) in d.items {
      var i :| 0 <= i < |d.items| && d.items[i] == (k, v);
      GetAt(d, i);
    }
  }
}
