/** Python dictionaries with string keys as insertion-ordered association lists. Lookups take
    the first binding of a key; assignment overwrites that binding in place,
    or appends a new one at the end, as `d[k] = v` does in Python.
 */
module Dicts {
  import opened Wrappers

  type Dict<V> = seq<(string, V)>

  function KeySet<V>(d: Dict<V>): set<string> {
    set i | 0 <= i < |d| :: d[i].0
  }

  lemma KeySetCons<V>(d: Dict<V>)
    requires |d| > 0
    ensures KeySet(d) == {d[0].0} + KeySet(d[1..])
  {
    forall k | k in KeySet(d[1..])
      ensures k in KeySet(d)
    {
      var i :| 0 <= i < |d[1..]| && d[1..][i].0 == k;
      assert d[i + 1].0 == k;
    }
  }

  /** `d[k]` when `k in d`, None otherwise. */
  function Lookup<V>(d: Dict<V>, k: string): (r: Option<V>)
    ensures r.Some? <==> k in KeySet(d)
    ensures r.Some? ==> (k, r.value) in d
  {
    if |d| == 0 then None
    else if d[0].0 == k then Some(d[0].1)
    else
      KeySetCons(d);
      Lookup(d[1..], k)
  }

  /** `d.get(k, default)`: the value bound to `k`, or `default` when `k` is absent. */
  function Get<V>(d: Dict<V>, k: string, default: V): (r: V)
    ensures k in KeySet(d) ==> (k, r) in d && Lookup(d, k) == Some(r)
    ensures k !in KeySet(d) ==> r == default
  {
    match Lookup(d, k)
    case Some(v) => v
    case None => default
  }

  /** `d[k] = v`. */
  function Assign<V>(d: Dict<V>, k: string, v: V): (r: Dict<V>)
    ensures Lookup(r, k) == Some(v)
    ensures forall k' :: k' != k ==> Lookup(r, k') == Lookup(d, k')
    ensures KeySet(r) == KeySet(d) + {k}
    ensures k in KeySet(d) ==> |r| == |d| && forall i :: 0 <= i < |d| ==> r[i].0 == d[i].0
    ensures k !in KeySet(d) ==> r == d + [(k, v)]
    ensures Lookup(d, k) == Some(v) ==> r == d
  {
    if |d| == 0 then [(k, v)]
    else if d[0].0 == k then
      KeySetCons(d);
      KeySetPrepend((k, v), d[1..]);
      [(k, v)] + d[1..]
    else
      KeySetCons(d);
      var rest := Assign(d[1..], k, v);
      KeySetPrepend(d[0], rest);
      [d[0]] + rest
  }

  lemma KeySetPrepend<V>(kv: (string, V), d: Dict<V>)
    ensures KeySet([kv] + d) == {kv.0} + KeySet(d)
  {
    KeySetCons([kv] + d);
    assert ([kv] + d)[1..] == d;
  }
}
