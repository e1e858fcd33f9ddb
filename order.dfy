/**
 * Python's ordering of `str` values (lexicographic by code point, a proper
 * prefix first), `sorted(xs)` / `list.sort()` and `sorted(set(xs))`.
 */
module Order {

  /** Python's `a < b` on strings. */
  predicate Lt(a: string, b: string)
    decreases |a|
  {
    |b| > 0 && (|a| == 0 || a[0] < b[0] || (a[0] == b[0] && Lt(a[1..], b[1..])))
  }

  predicate Le(a: string, b: string) {
    a == b || Lt(a, b)
  }

  lemma {:induction false} LtIrreflexive(a: string)
    ensures !Lt(a, a)
    decreases |a|
  {
    if |a| > 0 {
      LtIrreflexive(a[1..]);
    }
  }

  lemma {:induction false} LtTransitive(a: string, b: string, c: string)
    requires Lt(a, b) && Lt(b, c)
    ensures Lt(a, c)
    decreases |a|
  {
    if |a| > 0 && a[0] == b[0] && b[0] == c[0] {
      LtTransitive(a[1..], b[1..], c[1..]);
    }
  }

  lemma {:induction false} LtTotal(a: string, b: string)
    ensures a == b || Lt(a, b) || Lt(b, a)
    decreases |a|
  {
    if |a| > 0 && |b| > 0 && a[0] == b[0] {
      LtTotal(a[1..], b[1..]);
      if a[1..] == b[1..] {
        assert a == [a[0]] + a[1..] && b == [b[0]] + b[1..];
      }
    }
  }

  lemma LtAsymmetric(a: string, b: string)
    requires Lt(a, b)
    ensures !Lt(b, a)
  {
    if Lt(b, a) {
      LtTransitive(a, b, a);
      LtIrreflexive(a);
    }
  }

  lemma LeTransitive(a: string, b: string, c: string)
    requires Le(a, b) && Le(b, c)
    ensures Le(a, c)
  {
    if a != b && b != c {
      LtTransitive(a, b, c);
    }
  }

  function Elems<T>(s: seq<T>): set<T> {
    set x | x in s
  }

  lemma ElemsEmpty<T>(s: seq<T>)
    ensures Elems(s) == {} <==> s == []
  {
    if s != [] {
      assert s[0] in Elems(s);
    }
  }

  lemma ElemsAppend<T>(a: seq<T>, b: seq<T>)
    ensures Elems(a + b) == Elems(a) + Elems(b)
  {
  }

  // ---------------------------------------------------------------------
  // sorted(xs, key=...)
  // ---------------------------------------------------------------------

  /** Each element's key is at most the next one's. */
  predicate Sorted<T>(xs: seq<T>, key: T -> string) {
    forall i | 0 <= i < |xs| - 1 :: Le(key(xs[i]), key(xs[i + 1]))
  }

  /** Sortedness between neighbours gives sortedness between any two positions. */
  lemma {:induction false} SortedPairwise<T>(xs: seq<T>, key: T -> string, i: int, j: int)
    requires Sorted(xs, key) && 0 <= i <= j < |xs|
    ensures Le(key(xs[i]), key(xs[j]))
    decreases j - i
  {
    if i < j {
      SortedPairwise(xs, key, i + 1, j);
      LeTransitive(key(xs[i]), key(xs[i + 1]), key(xs[j]));
    }
  }

  /** Inserting `x` in front of the first element whose key is not smaller keeps the order. */
  function Insert<T>(x: T, xs: seq<T>, key: T -> string): (r: seq<T>)
    requires Sorted(xs, key)
    ensures Sorted(r, key)
    ensures multiset(r) == multiset(xs) + multiset{x}
    ensures |r| > 0 && (r[0] == x || (|xs| > 0 && r[0] == xs[0]))
    decreases |xs|
  {
    if |xs| == 0 then [x]
    else if Le(key(x), key(xs[0])) then [x] + xs
    else
      LtTotal(key(x), key(xs[0]));
      assert xs == [xs[0]] + xs[1..];
      [xs[0]] + Insert(x, xs[1..], key)
  }

  /** Python's stable `sorted(xs, key=key)`: a permutation of `xs` in key order. */
  function Sort<T>(xs: seq<T>, key: T -> string): (r: seq<T>)
    ensures Sorted(r, key)
    ensures multiset(r) == multiset(xs)
  {
    if |xs| == 0 then []
    else
      assert xs == [xs[0]] + xs[1..];
      Insert(xs[0], Sort(xs[1..], key), key)
  }

  function Id(s: string): string {
    s
  }

  // ---------------------------------------------------------------------
  // sorted(set(xs))
  // ---------------------------------------------------------------------

  /** Each element is smaller than the next one. */
  predicate StrictlySorted(xs: seq<string>) {
    forall i | 0 <= i < |xs| - 1 :: Lt(xs[i], xs[i + 1])
  }

  lemma {:induction false} StrictlySortedPairwise(xs: seq<string>, i: int, j: int)
    requires StrictlySorted(xs) && 0 <= i < j < |xs|
    ensures Lt(xs[i], xs[j])
    decreases j - i
  {
    if i + 1 < j {
      StrictlySortedPairwise(xs, i + 1, j);
      LtTransitive(xs[i], xs[i + 1], xs[j]);
    }
  }

  /** A strictly sorted list has no repeated element. */
  lemma StrictlySortedDistinct(xs: seq<string>)
    requires StrictlySorted(xs)
    ensures forall i, j | 0 <= i < j < |xs| :: xs[i] != xs[j]
  {
    forall i, j | 0 <= i < j < |xs|
      ensures xs[i] != xs[j]
    {
      StrictlySortedPairwise(xs, i, j);
      LtIrreflexive(xs[i]);
    }
  }

  function InsertUnique(x: string, xs: seq<string>): (r: seq<string>)
    requires StrictlySorted(xs)
    ensures StrictlySorted(r)
    ensures Elems(r) == Elems(xs) + {x}
    ensures |r| > 0 && (r[0] == x || (|xs| > 0 && r[0] == xs[0]))
    decreases |xs|
  {
    if |xs| == 0 then [x]
    else if x == xs[0] then xs
    else if Lt(x, xs[0]) then [x] + xs
    else
      LtTotal(x, xs[0]);
      assert xs == [xs[0]] + xs[1..];
      ElemsAppend([xs[0]], xs[1..]);
      ElemsAppend([xs[0]], InsertUnique(x, xs[1..]));
      [xs[0]] + InsertUnique(x, xs[1..])
  }

  /** Python's `sorted(set(xs))`: the distinct elements of `xs`, in increasing order. */
  function SortedSet(xs: seq<string>): (r: seq<string>)
    ensures StrictlySorted(r)
    ensures Elems(r) == Elems(xs)
  {
    if |xs| == 0 then []
    else
      assert xs == [xs[0]] + xs[1..];
      InsertUnique(xs[0], SortedSet(xs[1..]))
  }

  /** The contract of `SortedSet` determines its result: two strictly sorted
      lists with the same elements are the same list. */
  lemma {:induction false} StrictlySortedUnique(a: seq<string>, b: seq<string>)
    requires StrictlySorted(a) && StrictlySorted(b) && Elems(a) == Elems(b)
    ensures a == b
    decreases |a|
  {
    if |a| == 0 {
      ElemsEmpty(b);
    } else {
      assert a[0] in Elems(b);
      assert |b| > 0;
      assert b[0] in Elems(a);
      if a[0] != b[0] {
        var i :| 0 <= i < |b| && b[i] == a[0];
        var j :| 0 <= j < |a| && a[j] == b[0];
        StrictlySortedPairwise(b, 0, i);
        StrictlySortedPairwise(a, 0, j);
        LtAsymmetric(a[0], b[0]);
        assert false;
      }
      StrictlySortedDistinct(a);
      StrictlySortedDistinct(b);
      assert Elems(a[1..]) == Elems(a) - {a[0]} by {
        forall y ensures y in Elems(a[1..]) <==> y in Elems(a) - {a[0]} {
          if y in Elems(a) && y != a[0] {
            var k :| 0 <= k < |a| && a[k] == y;
            assert a[1..][k - 1] == y;
          }
          if y in Elems(a[1..]) {
            var k :| 0 <= k < |a[1..]| && a[1..][k] == y;
            assert a[k + 1] == y;
          }
        }
      }
      assert Elems(b[1..]) == Elems(b) - {b[0]} by {
        forall y ensures y in Elems(b[1..]) <==> y in Elems(b) - {b[0]} {
          if y in Elems(b) && y != b[0] {
            var k :| 0 <= k < |b| && b[k] == y;
            assert b[1..][k - 1] == y;
          }
          if y in Elems(b[1..]) {
            var k :| 0 <= k < |b[1..]| && b[1..][k] == y;
            assert b[k + 1] == y;
          }
        }
      }
      StrictlySortedUnique(a[1..], b[1..]);
      assert a == [a[0]] + a[1..] && b == [b[0]] + b[1..];
    }
  }
}
