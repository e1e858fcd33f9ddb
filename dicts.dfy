/**
 * Python's `dict` with string keys: insertion-ordered, so it is a list of
 * (key, value) pairs with distinct keys. Assigning to an existing key keeps
 * its position; assigning a new key appends it.
 */
module Dicts {
  import opened Wrappers
  import Order

  type Dict<V> = seq<(string, V)>

  function Keys<V>(d: Dict<V>): (ks: seq<string>)
    ensures |ks| == |d| && forall i | 0 <= i < |d| :: ks[i] == d[i].0
  {
    seq(|d|, i requires 0 <= i < |d| => d[i].0)
  }

  predicate DistinctKeys<V>(d: Dict<V>) {
    forall i, j | 0 <= i < j < |d| :: d[i].0 != d[j].0
  }

  /** `d.get(k)`: the value stored under `k`, if any. */
  function Get<V>(d: Dict<V>, k: string): (r: Option<V>)
    ensures r.None? <==> k !in Keys(d)
    ensures r.Some? ==> (k, r.value) in d
  {
    if |d| == 0 then None
    else if d[0].0 == k then Some(d[0].1)
    else
      assert Keys(d) == [d[0].0] + Keys(d[1..]);
      Get(d[1..], k)
  }

  /** With distinct keys, looking a key up finds exactly the pair stored with it. */
  lemma GetIsMember<V>(d: Dict<V>, k: string, v: V)
    requires DistinctKeys(d)
    ensures Get(d, k) == Some(v) <==> (k, v) in d
  {
  }

  /** `d[k] = v`: an existing key is updated where it stands, a new key goes last. */
  function Put<V>(d: Dict<V>, k: string, v: V): (r: Dict<V>)
    requires DistinctKeys(d)
    ensures k in Keys(d) ==> |r| == |d| && forall i | 0 <= i < |d| :: r[i] == (if d[i].0 == k then (k, v) else d[i])
    ensures k !in Keys(d) ==> r == d + [(k, v)]
  {
    if |d| == 0 then [(k, v)]
    else if d[0].0 == k then
      assert k in Keys(d) && forall i | 1 <= i < |d| :: d[i].0 != k;
      [(k, v)] + d[1..]
    else
      assert Keys(d) == [d[0].0] + Keys(d[1..]);
      assert k in Keys(d) <==> k in Keys(d[1..]);
      var rest := Put(d[1..], k, v);
      assert forall i | 1 <= i < |d| :: d[1..][i - 1] == d[i];
      [d[0]] + rest
  }

  lemma PutDistinct<V>(d: Dict<V>, k: string, v: V)
    requires DistinctKeys(d)
    ensures DistinctKeys(Put(d, k, v))
    ensures Keys(Put(d, k, v)) == if k in Keys(d) then Keys(d) else Keys(d) + [k]
  {
  }

  /** After `d[k] = v`, `k` maps to `v` and every other key to what it mapped to before. */
  lemma PutGet<V>(d: Dict<V>, k: string, v: V, k': string)
    requires DistinctKeys(d)
    ensures Get(Put(d, k, v), k') == if k' == k then Some(v) else Get(d, k')
  {
    var r := Put(d, k, v);
    PutDistinct(d, k, v);
    if k' == k {
      GetIsMember(r, k, v);
      if k in Keys(d) {
        var i :| 0 <= i < |d| && d[i].0 == k;
        assert r[i] == (k, v);
      } else {
        assert r[|d|] == (k, v);
      }
    } else {
      match Get(d, k')
      case None =>
        assert k' !in Keys(r);
      case Some(w) =>
        GetIsMember(d, k', w);
        GetIsMember(r, k', w);
        var i :| 0 <= i < |d| && d[i] == (k', w);
        assert r[i] == d[i];
    }
  }

  /** `del d[k]` (or `d.pop(k)`): the pairs of `d` whose key is not `k`, in order. */
  function Remove<V>(d: Dict<V>, k: string): (r: Dict<V>)
    ensures forall i | 0 <= i < |r| :: r[i] in d && r[i].0 != k
    ensures forall i | 0 <= i < |d| && d[i].0 != k :: d[i] in r
    ensures |r| <= |d|
  {
    if |d| == 0 then []
    else (if d[0].0 == k then [] else [d[0]]) + Remove(d[1..], k)
  }

  lemma {:induction false} RemoveDistinct<V>(d: Dict<V>, k: string)
    requires DistinctKeys(d)
    ensures DistinctKeys(Remove(d, k))
  {
    if |d| > 0 {
      RemoveDistinct(d[1..], k);
      var rest := Remove(d[1..], k);
      if d[0].0 != k {
        forall j | 0 <= j < |rest|
          ensures d[0].0 != rest[j].0
        {
          assert rest[j] in d[1..];
        }
      }
    }
  }

  /** After `del d[k]`, `k` is absent and every other key keeps its value. */
  lemma RemoveGet<V>(d: Dict<V>, k: string, k': string)
    requires DistinctKeys(d)
    ensures Get(Remove(d, k), k') == if k' == k then None else Get(d, k')
  {
    var r := Remove(d, k);
    RemoveDistinct(d, k);
    match Get(r, k')
    case None =>
    case Some(w) =>
      GetIsMember(r, k', w);
      GetIsMember(d, k', w);
  }

  // ---------------------------------------------------------------------
  // dict(sorted(d.items()))
  // ---------------------------------------------------------------------

  function FirstOf<V>(p: (string, V)): string {
    p.0
  }

  lemma {:induction false} DistinctCountsOne<V>(d: Dict<V>, x: (string, V))
    requires DistinctKeys(d)
    ensures multiset(d)[x] <= 1
  {
    if |d| > 0 {
      assert d == [d[0]] + d[1..];
      DistinctCountsOne(d[1..], x);
      if d[0] == x {
        assert x !in d[1..];
      }
    }
  }

  /** Rearranging the pairs of a dict cannot create a repeated key. */
  lemma PermutationDistinct<V>(a: Dict<V>, b: Dict<V>)
    requires DistinctKeys(a) && multiset(a) == multiset(b)
    ensures DistinctKeys(b)
  {
    forall i, j | 0 <= i < j < |b|
      ensures b[i].0 != b[j].0
    {
      assert b[i] in multiset(a) && b[j] in multiset(a);
      if b[i] == b[j] {
        assert b == b[..j] + b[j..];
        assert b[i] in b[..j];
        assert b[j] in b[j..];
        assert multiset(b)[b[i]] == multiset(b[..j])[b[i]] + multiset(b[j..])[b[i]];
        DistinctCountsOne(a, b[i]);
      }
    }
  }

  /** Python's `dict(sorted(d.items()))`: the same key-value pairs, in key order. */
  function SortByKey<V>(d: Dict<V>): (r: Dict<V>)
    requires DistinctKeys(d)
    ensures multiset(r) == multiset(d)
    ensures Order.Sorted(r, FirstOf)
    ensures DistinctKeys(r)
  {
    var r := Order.Sort(d, FirstOf);
    PermutationDistinct(d, r);
    r
  }

  /** Sorting a dict by key changes no lookup. */
  lemma SortByKeyGet<V>(d: Dict<V>, k: string)
    requires DistinctKeys(d)
    ensures Get(SortByKey(d), k) == Get(d, k)
  {
    var r := SortByKey(d);
    match Get(d, k)
    case None =>
      if Get(r, k).Some? {
        assert (k, Get(r, k).value) in multiset(r);
      }
    case Some(v) =>
      assert (k, v) in multiset(d);
      GetIsMember(r, k, v);
  }
}
