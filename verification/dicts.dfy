/** Python dicts with string keys, and the values the pipeline keeps in them. */
module Dicts {

  /** A value stored in a group: raw text, a cleaned number, a decoded position list, or None. */
  datatype Value =
    | Text(s: string)
    | Int(i: int)
    | Float(f: real)
    | IntList(ints: seq<int>)
    | TextList(texts: seq<string>)
    | NoneValue

  predicate NoDuplicates<T(==)>(xs: seq<T>) {
    forall i, j :: 0 <= i < j < |xs| ==> xs[i] != xs[j]
  }

  /** The elements of `xs` that lie in `cats`, in order. */
  function KeepIn<K(==,!new)>(xs: seq<K>, cats: set<K>): (r: seq<K>)
    ensures |r| <= |xs|
    ensures forall x :: x in r <==> x in xs && x in cats
    ensures NoDuplicates(xs) ==> NoDuplicates(r)
  {
    if xs == [] then []
    else
      var prefix, last := xs[..|xs| - 1], xs[|xs| - 1];
      assert NoDuplicates(xs) ==> last !in prefix && NoDuplicates(prefix);
      KeepIn(prefix, cats) + (if last in cats then [last] else [])
  }

  /** The elements of `xs` other than `k`, in order. */
  function Without<K(==,!new)>(xs: seq<K>, k: K): (r: seq<K>)
    ensures |r| <= |xs|
    ensures forall x :: x in r <==> x in xs && x != k
    ensures NoDuplicates(xs) ==> NoDuplicates(r)
  {
    if xs == [] then []
    else
      var prefix, last := xs[..|xs| - 1], xs[|xs| - 1];
      assert NoDuplicates(xs) ==> last !in prefix && NoDuplicates(prefix);
      Without(prefix, k) + (if last != k then [last] else [])
  }

  /** A Python dict: its keys in insertion order, and the entry of each key. */
  datatype OrderedMap<K(==,!new), V> = OrderedMap(keys: seq<K>, entries: map<K, V>) {

    ghost predicate Valid() {
      && (forall k :: k in keys <==> k in entries)
      && NoDuplicates(keys)
    }

    /** `d[k] = v`: an existing key keeps its place, a new key goes last. */
    function Put(k: K, v: V): (r: OrderedMap<K, V>)
      requires Valid()
      ensures r.Valid()
      ensures r.entries == entries[k := v]
      ensures r.keys == if k in entries then keys else keys + [k]
    {
      OrderedMap(if k in entries then keys else keys + [k], entries[k := v])
    }

    /** `del d[k]`. */
    function Remove(k: K): (r: OrderedMap<K, V>)
      requires Valid() && k in entries
      ensures r.Valid()
      ensures r.entries == entries - {k}
      ensures r.keys == Without(keys, k)
    {
      OrderedMap(Without(keys, k), entries - {k})
    }

    /** `{k: v for k, v in d.items() if k in cats}`. */
    function Restrict(cats: set<K>): (r: OrderedMap<K, V>)
      requires Valid()
      ensures r.Valid()
      ensures r.keys == KeepIn(keys, cats)
      ensures r.entries.Keys == entries.Keys * cats
      ensures forall k :: k in r.entries ==> r.entries[k] == entries[k]
    {
      OrderedMap(KeepIn(keys, cats), map k | k in entries && k in cats :: entries[k])
    }

    /** `list(d.values())`. */
    function Values(): (vs: seq<V>)
      requires Valid()
      ensures |vs| == |keys|
      ensures forall i :: 0 <= i < |keys| ==> vs[i] == entries[keys[i]]
    {
      seq(|keys|, i requires 0 <= i < |keys| => entries[keys[i]])
    }
  }

  /**
   * `out = {}`, then `out[k] = v` for every item of `d` whose key is in
   * `cats`: the loop that builds `d.Restrict(cats)`.
   */
  method Filter<K(==,!new), V>(d: OrderedMap<K, V>, cats: set<K>) returns (r: OrderedMap<K, V>)
    requires d.Valid()
    ensures r == d.Restrict(cats)
  {
    r := Empty();
    var i := 0;
    while i < |d.keys|
      invariant i <= |d.keys| && r.Valid()
      invariant r.keys == KeepIn(d.keys[..i], cats)
      invariant forall k :: k in r.entries ==> r.entries[k] == d.entries[k]
    {
      var k := d.keys[i];
      assert d.keys[..i + 1][..i] == d.keys[..i] && d.keys[..i + 1][i] == k;
      if k in cats {
        assert k !in d.keys[..i];
        r := r.Put(k, d.entries[k]);
      }
      i := i + 1;
    }
    assert d.keys[..i] == d.keys;
    assert r.entries == d.Restrict(cats).entries;
  }

  /** A dict keyed by strings, as most of the pipeline's groups and tables are. */
  type Dict<V> = OrderedMap<string, V>

  function Empty<K(==,!new), V>(): (d: OrderedMap<K, V>)
    ensures d.Valid() && d.keys == [] && d.entries == map[]
  {
    OrderedMap([], map[])
  }

  /** A group of raw cells viewed as a group of `Text` values. */
  function Lift(d: Dict<string>): (r: Dict<Value>)
    requires d.Valid()
    ensures r.Valid() && r.keys == d.keys
    ensures forall k :: k in r.entries <==> k in d.entries
    ensures forall k :: k in d.entries ==> r.entries[k] == Text(d.entries[k])
  {
    OrderedMap(d.keys, map k | k in d.entries :: Text(d.entries[k]))
  }
}
