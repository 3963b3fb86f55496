/** A Python `dict` keyed by byte strings, as the list of its items in insertion order. */
module Dicts {
  import opened ByteStrings

  datatype Pair<+V> = Pair(key: bytes, value: V)

  function KeyOf<V>(p: Pair<V>): bytes { p.key }

  /** `d[k] = v`: an existing key keeps its position, a new one goes last. */
  function Put<V>(d: seq<Pair<V>>, k: bytes, v: V): seq<Pair<V>> {
    if d == [] then [Pair(k, v)]
    else if d[0].key == k then [Pair(k, v)] + d[1..]
    else [d[0]] + Put(d[1..], k, v)
  }

  ghost predicate DistinctKeys<V>(d: seq<Pair<V>>) {
    forall i, j :: 0 <= i < j < |d| ==> d[i].key != d[j].key
  }

  /** After `d[k] = v`, the items are the old ones under other keys, and (k, v). */
  lemma {:induction false} PutMembers<V>(d: seq<Pair<V>>, k: bytes, v: V, p: Pair<V>)
    requires DistinctKeys(d)
    ensures p in Put(d, k, v) <==> p == Pair(k, v) || (p in d && p.key != k)
  {
    if d == [] {
    } else if d[0].key == k {
      assert d == [d[0]] + d[1..];
      forall i | 0 <= i < |d[1..]| ensures d[1..][i].key != k { }
    } else {
      assert d == [d[0]] + d[1..];
      PutMembers(d[1..], k, v, p);
    }
  }

  lemma {:induction false} PutKeepsDistinct<V>(d: seq<Pair<V>>, k: bytes, v: V)
    requires DistinctKeys(d)
    ensures DistinctKeys(Put(d, k, v))
  {
    if d == [] {
    } else if d[0].key == k {
    } else {
      PutKeepsDistinct(d[1..], k, v);
      var t := Put(d[1..], k, v);
      forall j | 0 <= j < |t| ensures t[j].key != d[0].key {
        PutMembers(d[1..], k, v, t[j]);
      }
    }
  }
}
