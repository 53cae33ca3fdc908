/** A Python `dict` as an insertion-ordered list of (key, value) pairs.
    Assigning to a present key keeps its position; a new key goes to the end;
    deleting removes the pair. */
module PyDict {
  import opened Wrappers

  type Dict<K, V> = seq<(K, V)>

  /** No key occurs twice. */
  ghost predicate DistinctKeys<K, V>(d: Dict<K, V>) {
    forall i, j :: 0 <= i < j < |d| ==> d[i].0 != d[j].0
  }

  /** `d.get(k)`. */
  function Get<K(==,!new), V>(d: Dict<K, V>, k: K): Option<V>
  {
    if |d| == 0 then None
    else if d[0].0 == k then Some(d[0].1)
    else Get(d[1..], k)
  }

  /** `Get` finds exactly the keys stored in the list, with their values. */
  lemma {:induction false} GetFinds<K(!new), V>(d: Dict<K, V>, k: K)
    ensures Get(d, k).Some? <==> exists i :: 0 <= i < |d| && d[i].0 == k
    ensures Get(d, k).Some? ==> exists i :: 0 <= i < |d| && d[i] == (k, Get(d, k).value)
  {
    if |d| > 0 && d[0].0 != k {
      GetFinds(d[1..], k);
      assert forall i :: 1 <= i < |d| ==> d[i] == d[1..][i - 1];
      if exists i :: 0 <= i < |d| && d[i].0 == k {
        var i :| 0 <= i < |d| && d[i].0 == k;
        assert d[1..][i - 1].0 == k;
      }
    }
  }

  /** With distinct keys, the first key does not occur in the rest. */
  lemma NotInTail<K(!new), V>(d: Dict<K, V>)
    requires |d| > 0 && DistinctKeys(d)
    ensures Get(d[1..], d[0].0).None?
    ensures DistinctKeys(d[1..])
  {
    GetFinds(d[1..], d[0].0);
    forall i, j | 0 <= i < j < |d[1..]| ensures d[1..][i].0 != d[1..][j].0 {
      assert d[1..][i] == d[i + 1] && d[1..][j] == d[j + 1];
    }
  }

  /** Prepending a pair whose key is absent from the rest keeps keys distinct. */
  lemma ConsDistinct<K(!new), V>(p: (K, V), rest: Dict<K, V>)
    requires DistinctKeys(rest) && Get(rest, p.0).None?
    ensures DistinctKeys([p] + rest)
  {
    GetFinds(rest, p.0);
    var d := [p] + rest;
    forall i, j | 0 <= i < j < |d| ensures d[i].0 != d[j].0 {
      if i == 0 {
        assert d[j] == rest[j - 1];
      } else {
        assert d[i] == rest[i - 1] && d[j] == rest[j - 1];
      }
    }
  }

  /** `d[k] = v`. */
  function Set<K(==,!new), V>(d: Dict<K, V>, k: K, v: V): (r: Dict<K, V>)
    ensures forall j :: Get(r, j) == if j == k then Some(v) else Get(d, j)
    ensures Get(d, k).None? ==> r == d + [(k, v)]
    ensures Get(d, k).Some? ==> |r| == |d|
  {
    if |d| == 0 then [(k, v)]
    else if d[0].0 == k then [(k, v)] + d[1..]
    else [d[0]] + Set(d[1..], k, v)
  }

  /** Assignment keeps the keys distinct. */
  lemma {:induction false} SetDistinct<K(!new), V>(d: Dict<K, V>, k: K, v: V)
    requires DistinctKeys(d)
    ensures DistinctKeys(Set(d, k, v))
  {
    if |d| > 0 {
      NotInTail(d);
      if d[0].0 == k {
        ConsDistinct((k, v), d[1..]);
      } else {
        SetDistinct(d[1..], k, v);
        ConsDistinct(d[0], Set(d[1..], k, v));
      }
    }
  }

  /** `del d[k]` (no effect when `k` is absent). */
  function Delete<K(==,!new), V>(d: Dict<K, V>, k: K): (r: Dict<K, V>)
    requires DistinctKeys(d)
    ensures forall j :: Get(r, j) == if j == k then None else Get(d, j)
    ensures DistinctKeys(r)
    ensures |r| <= |d|
  {
    if |d| == 0 then []
    else
      NotInTail(d);
      if d[0].0 == k then d[1..]
      else
        var rest := Delete(d[1..], k);
        ConsDistinct(d[0], rest);
        [d[0]] + rest
  }

  /** `{key: f(value) for key, value in d.items()}`. */
  function MapValues<K(==,!new), V, W>(d: Dict<K, V>, f: V -> W): (r: Dict<K, W>)
    ensures |r| == |d|
    ensures forall j :: Get(r, j) == (if Get(d, j).Some? then Some(f(Get(d, j).value)) else None)
    ensures forall i :: 0 <= i < |d| ==> r[i] == (d[i].0, f(d[i].1))
  {
    if |d| == 0 then [] else [(d[0].0, f(d[0].1))] + MapValues(d[1..], f)
  }

  lemma MapValuesDistinct<K(!new), V, W>(d: Dict<K, V>, f: V -> W)
    requires DistinctKeys(d)
    ensures DistinctKeys(MapValues(d, f))
  {
  }
}
