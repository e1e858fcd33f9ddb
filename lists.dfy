/** Lists without repetitions, and removing an element from a list. */
module Lists {

  /** No element occurs twice. It is stated by recursion, so that a proof unfolds it only
      where it asks for it; `DistinctPairwise` gives the meaning by positions. */
  predicate Distinct<T(==)>(s: seq<T>) {
    |s| == 0 || (s[0] !in s[1..] && Distinct(s[1..]))
  }

  /** No two positions of a distinct list hold the same element, and conversely. */
  lemma {:induction false} DistinctPairwise<T>(s: seq<T>)
    ensures Distinct(s) <==> forall a, b | 0 <= a < b < |s| :: s[a] != s[b]
  {
    if |s| > 0 {
      DistinctPairwise(s[1..]);
      if Distinct(s) {
        forall a, b | 0 <= a < b < |s|
          ensures s[a] != s[b]
        {
          assert s[b] == s[1..][b - 1];
          if a > 0 {
            assert s[a] == s[1..][a - 1];
          }
        }
      }
      if forall a, b | 0 <= a < b < |s| :: s[a] != s[b] {
        forall a, b | 0 <= a < b < |s| - 1
          ensures s[1..][a] != s[1..][b]
        {
          assert s[1..][a] == s[a + 1] && s[1..][b] == s[b + 1];
        }
        forall j | 0 <= j < |s| - 1
          ensures s[1..][j] != s[0]
        {
          assert s[1..][j] == s[j + 1];
        }
      }
    }
  }

  /** A list with one more element at its end is distinct when the list was and the element is new. */
  lemma {:induction false} DistinctSnoc<T>(a: seq<T>, x: T)
    ensures Distinct(a + [x]) <==> Distinct(a) && x !in a
  {
    if |a| > 0 {
      assert (a + [x])[1..] == a[1..] + [x];
      assert a == [a[0]] + a[1..];
      DistinctSnoc(a[1..], x);
    }
  }

  /** `s` without the elements equal to `x`, in order. */
  function Without<T(==)>(s: seq<T>, x: T): (r: seq<T>)
    ensures forall y | y in r :: y in s && y != x
    ensures forall y | y in s && y != x :: y in r
    ensures |r| <= |s|
  {
    if |s| == 0 then [] else (if s[0] == x then [] else [s[0]]) + Without(s[1..], x)
  }

  lemma {:induction false} WithoutAbsent<T>(s: seq<T>, x: T)
    requires x !in s
    ensures Without(s, x) == s
  {
    if |s| > 0 {
      WithoutAbsent(s[1..], x);
      assert s == [s[0]] + s[1..];
    }
  }

  /** In a list without repetitions, removing the one position holding `x` removes `x`. */
  lemma {:induction false} WithoutAt<T>(s: seq<T>, k: nat)
    requires Distinct(s) && k < |s|
    ensures Without(s, s[k]) == s[..k] + s[k + 1..]
  {
    if k == 0 {
      assert s[k] !in s[1..];
      WithoutAbsent(s[1..], s[k]);
    } else {
      assert s[1..][k - 1] == s[k];
      WithoutAt(s[1..], k - 1);
      assert s[1..][..k - 1] + s[1..][k..] == s[1..k] + s[k + 1..];
      assert s[..k] + s[k + 1..] == [s[0]] + (s[1..k] + s[k + 1..]);
    }
  }

  lemma {:induction false} WithoutDistinct<T>(s: seq<T>, x: T)
    requires Distinct(s)
    ensures Distinct(Without(s, x))
  {
    if |s| > 0 {
      WithoutDistinct(s[1..], x);
      var rest := Without(s[1..], x);
      if s[0] != x {
        assert s[0] !in rest;
        assert ([s[0]] + rest)[1..] == rest;
      } else {
        assert Without(s, x) == rest;
      }
    }
  }

  /** The first position holding `x`. */
  function IndexOf<T(==)>(s: seq<T>, x: T): (k: nat)
    requires x in s
    ensures k < |s| && s[k] == x && forall j | 0 <= j < k :: s[j] != x
  {
    if s[0] == x then 0 else 1 + IndexOf(s[1..], x)
  }

  /** `s` without position `k`. */
  function RemoveAt<T>(s: seq<T>, k: nat): (r: seq<T>)
    requires k < |s|
    ensures |r| == |s| - 1
    ensures forall j | 0 <= j < k :: r[j] == s[j]
    ensures forall j | k <= j < |r| :: r[j] == s[j + 1]
  {
    s[..k] + s[k + 1..]
  }

  /** A new element inserted after position `k` of a distinct list keeps it distinct. */
  lemma InsertDistinct<T>(s: seq<T>, x: T, k: nat)
    requires Distinct(s) && x !in s && k < |s|
    ensures Distinct(s[..k + 1] + [x] + s[k + 1..])
  {
    var r := s[..k + 1] + [x] + s[k + 1..];
    DistinctPairwise(s);
    forall a, b | 0 <= a < b < |r|
      ensures r[a] != r[b]
    {
      var a' := if a <= k then a else a - 1;
      var b' := if b <= k then b else b - 1;
      if a != k + 1 && b != k + 1 {
        assert r[a] == s[a'] && r[b] == s[b'];
      } else if a == k + 1 {
        assert r[b] == s[b'];
      } else {
        assert r[a] == s[a'];
      }
    }
    DistinctPairwise(r);
  }
}
