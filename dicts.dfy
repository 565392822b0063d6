/** Python's insertion-ordered `dict` with string keys: the keys in the order
    they were first inserted, and the key-to-value map. `list(d.keys())`,
    `len(d)`, `d[k] = v` and `d.update(e)` are modelled here. */
module Dicts {
  import opened Seqs

  datatype Dict<V> = Dict(keys: seq<string>, values: map<string, V>)

  /** The key list holds every key of the map exactly once. */
  ghost predicate Valid<V>(d: Dict<V>) {
    Distinct(d.keys) && (forall k :: k in d.keys <==> k in d.values)
  }

  function Empty<V>(): (r: Dict<V>)
    ensures Valid(r) && r.values == map[]
  {
    Dict([], map[])
  }

  /** `d[k] = v`: an existing key keeps its position, a new key goes last. */
  function Put<V>(d: Dict<V>, k: string, v: V): Dict<V> {
    if k in d.values then Dict(d.keys, d.values[k := v]) else Dict(d.keys + [k], d.values[k := v])
  }

  lemma PutValid<V>(d: Dict<V>, k: string, v: V)
    requires Valid(d)
    ensures Valid(Put(d, k, v))
    ensures Put(d, k, v).values == d.values[k := v]
  {
    if k !in d.values {
      AppendFreshDistinct(d.keys, k);
    }
  }

  /** Putting `m[ks[0]]`, `m[ks[1]]`, ... in that order. */
  function PutAll<V>(d: Dict<V>, ks: seq<string>, m: map<string, V>): Dict<V>
    requires forall k :: k in ks ==> k in m
  {
    if ks == [] then d
    else
      var n := |ks| - 1;
      Put(PutAll(d, ks[..n], m), ks[n], m[ks[n]])
  }

  lemma {:induction false} PutAllProps<V>(d: Dict<V>, ks: seq<string>, m: map<string, V>)
    requires Valid(d)
    requires forall k :: k in ks ==> k in m
    ensures Valid(PutAll(d, ks, m))
    ensures PutAll(d, ks, m).values.Keys == d.values.Keys + set k | k in ks
    ensures forall k :: k in ks ==> PutAll(d, ks, m).values[k] == m[k]
    ensures forall k :: k in d.values && k !in ks ==> PutAll(d, ks, m).values[k] == d.values[k]
    ensures |d.keys| <= |PutAll(d, ks, m).keys| && PutAll(d, ks, m).keys[..|d.keys|] == d.keys
  {
    if ks != [] {
      var n := |ks| - 1;
      PutAllProps(d, ks[..n], m);
      PutValid(PutAll(d, ks[..n], m), ks[n], m[ks[n]]);
      assert forall k :: k in ks <==> k in ks[..n] || k == ks[n];
    }
  }

  /** `d.update(e)`. */
  function Update<V>(d: Dict<V>, e: Dict<V>): Dict<V>
    requires Valid(e)
  {
    PutAll(d, e.keys, e.values)
  }

  /** After `d.update(e)` every key of either survives, `e` wins on a shared
      key, and the keys of `d` keep their places at the front. */
  lemma UpdateProps<V>(d: Dict<V>, e: Dict<V>)
    requires Valid(d) && Valid(e)
    ensures Valid(Update(d, e))
    ensures Update(d, e).values == d.values + e.values
    ensures |d.keys| <= |Update(d, e).keys| && Update(d, e).keys[..|d.keys|] == d.keys
  {
    PutAllProps(d, e.keys, e.values);
    assert (set k | k in e.keys) == e.values.Keys;
  }

  lemma {:induction false} DistinctCard(s: seq<string>)
    requires Distinct(s)
    ensures |set x | x in s| == |s|
  {
    if s != [] {
      var n := |s| - 1;
      DistinctCard(s[..n]);
      assert (set x | x in s) == (set x | x in s[..n]) + {s[n]};
      assert s[n] !in s[..n];
    }
  }

  /** `len(d)` is the length of `list(d.keys())`. */
  lemma SizeIsKeyCount<V>(d: Dict<V>)
    requires Valid(d)
    ensures |d.values| == |d.keys|
  {
    DistinctCard(d.keys);
    assert d.values.Keys == set x | x in d.keys;
  }
}
