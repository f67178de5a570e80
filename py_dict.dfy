/** Python dicts with string keys, as their items in insertion order. */
module PyDict {
  import opened Wrappers

  /** A dict as its `(key, value)` items, in insertion order. */
  type Items<V> = seq<(string, V)>

  predicate DistinctKeys<V>(items: Items<V>) {
    forall i, j :: 0 <= i < j < |items| ==> items[i].0 != items[j].0
  }

  /** `d.get(key)`: the value stored under `key`, if there is one. */
  function Lookup<V>(items: Items<V>, key: string): (r: Option<V>)
    ensures r.Some? <==> exists i :: 0 <= i < |items| && items[i].0 == key
    ensures r.Some? ==> (key, r.value) in items
  {
    if items == [] then None
    else if items[0].0 == key then Some(items[0].1)
    else
      var r := Lookup(items[1..], key);
      assert forall i :: 1 <= i < |items| ==> items[i] == items[1..][i - 1];
      r
  }

  /** With distinct keys, the value under a key is the one at its index. */
  lemma {:induction false} LookupAt<V>(items: Items<V>, i: nat)
    requires DistinctKeys(items) && i < |items|
    ensures Lookup(items, items[i].0) == Some(items[i].1)
    decreases i
  {
    if i > 0 {
      assert items[1..][i - 1] == items[i];
      LookupAt(items[1..], i - 1);
    }
  }

  /** Where `key` sits, if it is there. */
  function Position<V>(items: Items<V>, key: string): (r: Option<nat>)
    ensures r.Some? ==> r.value < |items| && items[r.value].0 == key
    ensures r.None? ==> forall i :: 0 <= i < |items| ==> items[i].0 != key
  {
    if items == [] then None
    else if items[0].0 == key then Some(0)
    else match Position(items[1..], key)
      case None => None
      case Some(i) => Some(i + 1)
  }

  /** `d[key] = value`: an existing key keeps its place and gets the new
      value; a new key goes at the end.  Every other key keeps its value. */
  function SetItem<V>(items: Items<V>, key: string, value: V): (r: Items<V>)
    requires DistinctKeys(items)
    ensures DistinctKeys(r)
    ensures Lookup(r, key) == Some(value)
    ensures forall k :: k != key ==> Lookup(r, k) == Lookup(items, k)
    ensures Lookup(items, key).Some? ==> |r| == |items|
    ensures Position(items, key).Some? ==> r == items[Position(items, key).value := (key, value)]
    ensures Lookup(items, key).None? ==> r == items + [(key, value)]
  {
    var r := match Position(items, key)
      case Some(i) => items[i := (key, value)]
      case None => items + [(key, value)];
    var p := Position(items, key);
    assert DistinctKeys(r);
    LookupAt(r, if p.Some? then p.value else |items|);
    forall k | k != key
      ensures Lookup(r, k) == Lookup(items, k)
    {
      SetItemOther(items, key, value, r, k);
    }
    r
  }

  lemma SetItemOther<V>(items: Items<V>, key: string, value: V, r: Items<V>, k: string)
    requires DistinctKeys(items) && DistinctKeys(r) && k != key
    requires |items| <= |r| <= |items| + 1
    requires forall i :: 0 <= i < |r| ==> r[i].0 == key || (i < |items| && r[i] == items[i])
    requires forall i :: 0 <= i < |items| ==> items[i].0 == key || r[i] == items[i]
    ensures Lookup(r, k) == Lookup(items, k)
  {
    if i :| 0 <= i < |items| && items[i].0 == k {
      LookupAt(items, i);
      LookupAt(r, i);
    }
  }
}
