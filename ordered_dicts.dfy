/**
 * A Python `dict` as a value: its keys in insertion order and the key-to-value
 * map. Assigning to an existing key keeps that key's position; assigning to a
 * new key appends it. The model uses this wherever the order of a dict's
 * iteration is visible in the output.
 */
module OrderedDicts {

  datatype Dict<K, V> = Dict(keys: seq<K>, entries: map<K, V>)

  predicate NoDuplicates<T(==)>(s: seq<T>) {
    forall i, j :: 0 <= i < j < |s| ==> s[i] != s[j]
  }

  /** The keys list and the map describe the same key set, without repetition. */
  ghost predicate Valid<K(!new), V>(d: Dict<K, V>) {
    NoDuplicates(d.keys) && forall k :: k in d.keys <==> k in d.entries
  }

  function Empty<K(==,!new), V>(): (d: Dict<K, V>)
    ensures Valid(d) && d.keys == [] && d.entries == map[]
  {
    Dict([], map[])
  }

  /** `d[k] = v` */
  function Put<K(==,!new), V>(d: Dict<K, V>, k: K, v: V): (r: Dict<K, V>)
    requires Valid(d)
    ensures Valid(r)
    ensures r.entries == d.entries[k := v]
    ensures k in d.entries ==> r.keys == d.keys
    ensures k !in d.entries ==> r.keys == d.keys + [k]
  {
    if k in d.entries then Dict(d.keys, d.entries[k := v])
    else Dict(d.keys + [k], d.entries[k := v])
  }

  /** `list(d.values())` */
  function Values<K(==,!new), V>(d: Dict<K, V>): (vs: seq<V>)
    requires Valid(d)
    ensures |vs| == |d.keys|
    ensures forall i :: 0 <= i < |d.keys| ==> vs[i] == d.entries[d.keys[i]]
  {
    seq(|d.keys|, i requires 0 <= i < |d.keys| => d.entries[d.keys[i]])
  }

  /**
   * `d.update(other)`: every key of `other` is assigned, in `other`'s order, so
   * the keys new to `d` are appended in that order and `other` wins on a
   * collision.
   */
  function Update<K(==,!new), V>(d: Dict<K, V>, other: Dict<K, V>): (r: Dict<K, V>)
    requires Valid(d) && Valid(other)
    ensures Valid(r)
    ensures r.entries.Keys == d.entries.Keys + other.entries.Keys
    ensures forall k :: k in other.entries ==> r.entries[k] == other.entries[k]
    ensures forall k :: k in d.entries && k !in other.entries ==> r.entries[k] == d.entries[k]
    ensures r.keys == d.keys + NewKeys(d.keys, other.keys)
  {
    Dict(d.keys + NewKeys(d.keys, other.keys), d.entries + other.entries)
  }

  /** The keys of `ks` that are not among `present`, in the order of `ks`, each once. */
  function NewKeys<K(==,!new)>(present: seq<K>, ks: seq<K>): (r: seq<K>)
    ensures forall k :: k in r <==> k in ks && k !in present
    ensures NoDuplicates(present) ==> NoDuplicates(present + r)
    decreases |ks|
  {
    if ks == [] then
      assert present + [] == present;
      []
    else if ks[0] in present then NewKeys(present, ks[1..])
    else
      var rest := NewKeys(present + [ks[0]], ks[1..]);
      assert present + ([ks[0]] + rest) == (present + [ks[0]]) + rest;
      [ks[0]] + rest
  }
}
