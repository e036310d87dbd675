/** Insertion-ordered dictionaries: a Python `dict` and a plain JavaScript
    object both iterate their keys in the order in which each key was first
    stored, and storing an existing key keeps its place. */
module Dicts {
  import opened Wrappers

  datatype Dict<K(==,!new), V> = Dict(keys: seq<K>, entries: map<K, V>) {

    /** Every key is listed exactly once, and the listed keys are the stored ones. */
    ghost predicate Valid() {
      (forall i, j :: 0 <= i < j < |keys| ==> keys[i] != keys[j]) &&
      (forall k :: k in entries <==> k in keys)
    }

    /** No two keys hold the same value (what makes the dictionary invertible). */
    ghost predicate Injective()
      requires Valid()
    {
      forall i, j :: 0 <= i < j < |keys| ==> entries[keys[i]] != entries[keys[j]]
    }
  }

  function Empty<K(==,!new), V>(): (d: Dict<K, V>)
    ensures d.Valid() && d.keys == [] && d.entries == map[]
  {
    Dict([], map[])
  }

  /** `d[k] = v`. */
  function Put<K(==,!new), V>(d: Dict<K, V>, k: K, v: V): (r: Dict<K, V>)
    requires d.Valid()
    ensures r.Valid()
    ensures k in r.entries && r.entries[k] == v
    ensures forall j :: j != k ==> (j in r.entries <==> j in d.entries)
    ensures forall j :: j != k && j in d.entries ==> r.entries[j] == d.entries[j]
    ensures k in d.entries ==> r.keys == d.keys
    ensures k !in d.entries ==> r.keys == d.keys + [k]
  {
    Dict(if k in d.entries then d.keys else d.keys + [k], d.entries[k := v])
  }

  /** `d.get(k)`: the stored value, or `None` for a missing key. */
  function Get<K(==,!new), V>(d: Dict<K, V>, k: K): (r: Option<V>)
    ensures r.Some? <==> k in d.entries
    ensures r.Some? ==> r.value == d.entries[k]
  {
    if k in d.entries then Some(d.entries[k]) else None
  }

  /** `d.items()` (Python) / `Object.entries(d)` (JavaScript), in insertion order. */
  function Items<K(==,!new), V>(d: Dict<K, V>): (r: seq<(K, V)>)
    requires d.Valid()
    ensures |r| == |d.keys|
    ensures forall i :: 0 <= i < |r| ==> r[i].0 == d.keys[i] && r[i].1 == d.entries[d.keys[i]]
  {
    seq(|d.keys|, i requires 0 <= i < |d.keys| => (d.keys[i], d.entries[d.keys[i]]))
  }

  /** Every stored pair appears among the items. */
  lemma ItemsComplete<K(!new), V>(d: Dict<K, V>, k: K)
    requires d.Valid() && k in d.entries
    ensures (k, d.entries[k]) in Items(d)
  {
    var i :| 0 <= i < |d.keys| && d.keys[i] == k;
    assert Items(d)[i] == (k, d.entries[k]);
  }

  /** The first components of a list of pairs. */
  function Firsts<K, V>(items: seq<(K, V)>): (r: seq<K>)
    ensures |r| == |items|
    ensures forall i :: 0 <= i < |items| ==> r[i] == items[i].0
  {
    seq(|items|, i requires 0 <= i < |items| => items[i].0)
  }

  /** A dictionary built by storing the pairs one after the other, as a
      dictionary comprehension does. */
  function FromItems<K(==,!new), V>(items: seq<(K, V)>): (r: Dict<K, V>)
    ensures r.Valid()
    ensures forall k :: k in r.entries <==> k in Firsts(items)
  {
    if items == [] then Empty()
    else
      var pre := items[..|items| - 1];
      assert Firsts(items) == Firsts(pre) + [items[|items| - 1].0];
      Put(FromItems(pre), items[|items| - 1].0, items[|items| - 1].1)
  }

  /** A later pair for the same key wins: the value kept for a key is that of its last pair. */
  lemma {:induction false} FromItemsLastWins<K(!new), V>(items: seq<(K, V)>, i: nat)
    requires i < |items|
    requires forall j :: i < j < |items| ==> items[j].0 != items[i].0
    ensures items[i].0 in FromItems(items).entries
    ensures FromItems(items).entries[items[i].0] == items[i].1
  {
    if i < |items| - 1 {
      FromItemsLastWins(items[..|items| - 1], i);
    }
  }

  /** With distinct keys, the comprehension keeps every pair and their order. */
  lemma {:induction false} FromDistinctItems<K(!new), V>(items: seq<(K, V)>)
    requires forall i, j :: 0 <= i < j < |items| ==> items[i].0 != items[j].0
    ensures FromItems(items).keys == Firsts(items)
  {
    if items != [] {
      var pre := items[..|items| - 1];
      FromDistinctItems(pre);
      assert Firsts(items) == Firsts(pre) + [items[|items| - 1].0];
    }
  }

  /** `{v: k for k, v in d.items()}`. */
  function Invert<K(==,!new), V(==,!new)>(d: Dict<K, V>): (r: Dict<V, K>)
    requires d.Valid()
    ensures r.Valid()
  {
    FromItems(seq(|d.keys|, i requires 0 <= i < |d.keys| => (d.entries[d.keys[i]], d.keys[i])))
  }

  /** Inverting an injective dictionary swaps every pair and lists the values in key order. */
  lemma InvertInjective<K(!new), V(!new)>(d: Dict<K, V>)
    requires d.Valid() && d.Injective()
    ensures |Invert(d).keys| == |d.keys|
    ensures forall i :: 0 <= i < |d.keys| ==> Invert(d).keys[i] == d.entries[d.keys[i]]
    ensures forall i :: 0 <= i < |d.keys| ==> Invert(d).entries[d.entries[d.keys[i]]] == d.keys[i]
    ensures Invert(d).Injective()
  {
    var items := seq(|d.keys|, i requires 0 <= i < |d.keys| => (d.entries[d.keys[i]], d.keys[i]));
    FromDistinctItems(items);
    forall i | 0 <= i < |d.keys|
      ensures Invert(d).entries[d.entries[d.keys[i]]] == d.keys[i]
    {
      FromItemsLastWins(items, i);
    }
  }

  /** Inverting twice lists the keys in their original order. */
  lemma InvertTwiceKeys<K(!new), V(!new)>(d: Dict<K, V>)
    requires d.Valid() && d.Injective()
    ensures Invert(Invert(d)).keys == d.keys
  {
    InvertInjective(d);
    InvertInjective(Invert(d));
  }

  /** One pair of an injective dictionary, seen in its inverse. */
  lemma InvertAt<K(!new), V(!new)>(d: Dict<K, V>, i: nat)
    requires d.Valid() && d.Injective() && i < |d.keys|
    ensures |Invert(d).keys| == |d.keys|
    ensures Invert(d).keys[i] == d.entries[d.keys[i]]
    ensures Invert(d).entries[d.entries[d.keys[i]]] == d.keys[i]
  {
    InvertInjective(d);
  }

  /** Inverting twice maps every key back to its own value. */
  lemma InvertTwiceEntries<K(!new), V(!new)>(d: Dict<K, V>)
    requires d.Valid() && d.Injective()
    ensures Invert(Invert(d)).entries == d.entries
  {
    var inv := Invert(d);
    assert inv.Injective() by { InvertInjective(d); }
    var back := Invert(inv);
    InvertTwiceKeys(d);
    forall k | k in d.entries ensures k in back.entries && back.entries[k] == d.entries[k] {
      var i :| 0 <= i < |d.keys| && d.keys[i] == k;
      InvertAt(d, i);
      InvertAt(inv, i);
    }
    assert forall k :: k in back.entries <==> k in d.entries;
  }

  /** Inverting an injective dictionary twice gives it back, order included. */
  lemma InvertInvolution<K(!new), V(!new)>(d: Dict<K, V>)
    requires d.Valid() && d.Injective()
    ensures Invert(Invert(d)) == d
  {
    InvertTwiceKeys(d);
    InvertTwiceEntries(d);
  }
}
