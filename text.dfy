/**
 * The Python `str` operations the application relies on, over `string`
 * (a sequence of Unicode code points, as Python's `str` is):
 * `strip`, `split(sep)`, `sep.join`, `split()` on white space, `replace`,
 * `in`, `startswith`/`endswith`, `lower` and `str(n)` for naturals.
 */
module Text {

  // ---------------------------------------------------------------------
  // White space and strip()
  // ---------------------------------------------------------------------

  /** The characters Python's `str.isspace()` accepts; `strip()` and `split()` remove these. */
  predicate IsSpace(c: char) {
    c == ' ' || ('\U{9}' <= c <= '\U{d}') || ('\U{1c}' <= c <= '\U{1f}')
    || c == '\U{85}' || c == '\U{a0}' || c == '\U{1680}' || ('\U{2000}' <= c <= '\U{200a}')
    || c == '\U{2028}' || c == '\U{2029}' || c == '\U{202f}' || c == '\U{205f}' || c == '\U{3000}'
  }

  predicate AllSpace(s: string) {
    forall i | 0 <= i < |s| :: IsSpace(s[i])
  }

  predicate NoSpace(s: string) {
    forall i | 0 <= i < |s| :: !IsSpace(s[i])
  }

  /** No white space at either end: the shape of every result of `strip()`. */
  predicate Stripped(s: string) {
    |s| == 0 || (!IsSpace(s[0]) && !IsSpace(s[|s| - 1]))
  }

  /** Python's `s.strip()`: `s` without the white space at either end. */
  function Strip(s: string): (r: string)
    ensures Stripped(r) && |r| <= |s|
    decreases |s|
  {
    if |s| > 0 && IsSpace(s[0]) then Strip(s[1..])
    else if |s| > 0 && IsSpace(s[|s| - 1]) then Strip(s[..|s| - 1])
    else s
  }

  /** `r` is what is left of `s` once some white space is cut from both ends. */
  ghost predicate IsTrimmedInfix(r: string, s: string) {
    exists i, j :: 0 <= i <= j <= |s| && r == s[i..j] && AllSpace(s[..i]) && AllSpace(s[j..])
  }

  lemma TrimmedInfixAt(r: string, s: string, i: nat, j: nat)
    requires i <= j <= |s| && r == s[i..j] && AllSpace(s[..i]) && AllSpace(s[j..])
    ensures IsTrimmedInfix(r, s)
  {
  }

  /** Cutting white space off the front of `s` keeps the cut-off ends of an infix white. */
  lemma TrimmedInfixDropFirst(s: string, i: nat, j: nat)
    requires |s| > 0 && IsSpace(s[0]) && i <= j <= |s| - 1
    requires AllSpace(s[1..][..i]) && AllSpace(s[1..][j..])
    ensures AllSpace(s[..i + 1]) && AllSpace(s[j + 1..]) && s[1..][i..j] == s[i + 1..j + 1]
  {
    assert s[..i + 1] == [s[0]] + s[1..][..i];
    assert s[j + 1..] == s[1..][j..];
  }

  /** Cutting white space off the back of `s` keeps the cut-off ends of an infix white. */
  lemma TrimmedInfixDropLast(s: string, i: nat, j: nat)
    requires |s| > 0 && IsSpace(s[|s| - 1]) && i <= j <= |s| - 1
    requires AllSpace(s[..|s| - 1][..i]) && AllSpace(s[..|s| - 1][j..])
    ensures AllSpace(s[..i]) && AllSpace(s[j..]) && s[..|s| - 1][i..j] == s[i..j]
  {
    assert s[..i] == s[..|s| - 1][..i];
    assert s[j..] == s[..|s| - 1][j..] + [s[|s| - 1]];
  }

  /** What `strip()` keeps is an infix of `s` with only white space cut off around it. */
  lemma {:induction false} StripIsTrimmedInfix(s: string)
    ensures IsTrimmedInfix(Strip(s), s)
    decreases |s|
  {
    if |s| > 0 && IsSpace(s[0]) {
      var t := s[1..];
      StripIsTrimmedInfix(t);
      var i, j :| 0 <= i <= j <= |t| && Strip(t) == t[i..j] && AllSpace(t[..i]) && AllSpace(t[j..]);
      TrimmedInfixDropFirst(s, i, j);
      TrimmedInfixAt(Strip(s), s, i + 1, j + 1);
    } else if |s| > 0 && IsSpace(s[|s| - 1]) {
      var t := s[..|s| - 1];
      StripIsTrimmedInfix(t);
      var i, j :| 0 <= i <= j <= |t| && Strip(t) == t[i..j] && AllSpace(t[..i]) && AllSpace(t[j..]);
      TrimmedInfixDropLast(s, i, j);
      TrimmedInfixAt(Strip(s), s, i, j);
    } else {
      assert s == s[0..|s|] && s[..0] == "" && s[|s|..] == "";
      TrimmedInfixAt(s, s, 0, |s|);
    }
  }

  /** `strip()` of an already stripped string changes nothing. */
  lemma StripStripped(s: string)
    requires Stripped(s)
    ensures Strip(s) == s
  {
  }

  /** `strip()` removes exactly the white space put around a stripped string. */
  lemma {:induction false} StripSurrounded(a: string, p: string, b: string)
    requires AllSpace(a) && AllSpace(b) && Stripped(p)
    ensures Strip(a + p + b) == p
    decreases |a| + |b|
  {
    var s := a + p + b;
    if |a| > 0 {
      assert s[1..] == a[1..] + p + b;
      StripSurrounded(a[1..], p, b);
    } else if |b| > 0 {
      if |p| == 0 {
        assert s[0] == b[0] && s[1..] == a + p + b[1..];
        StripSurrounded(a, p, b[1..]);
      } else {
        assert s[0] == p[0] && s[|s| - 1] == b[|b| - 1];
        assert s[..|s| - 1] == a + p + b[..|b| - 1];
        StripSurrounded(a, p, b[..|b| - 1]);
      }
    } else {
      assert s == p;
    }
  }

  /** `strip()` keeps only characters of `s`. */
  lemma StripChars(s: string)
    ensures forall c | c in Strip(s) :: c in s
  {
    StripIsTrimmedInfix(s);
    var i, j :| 0 <= i <= j <= |s| && Strip(s) == s[i..j] && AllSpace(s[..i]) && AllSpace(s[j..]);
    forall c | c in Strip(s)
      ensures c in s
    {
      var k :| 0 <= k < j - i && s[i..j][k] == c;
      assert s[i + k] == c;
    }
  }

  /** `strip()` is idempotent. */
  lemma StripIdempotent(s: string)
    ensures Strip(Strip(s)) == Strip(s)
  {
    StripStripped(Strip(s));
  }

  // ---------------------------------------------------------------------
  // Prefixes, suffixes and `in`
  // ---------------------------------------------------------------------

  predicate StartsWith(s: string, p: string) {
    p <= s
  }

  predicate EndsWith(s: string, p: string) {
    |p| <= |s| && s[|s| - |p|..] == p
  }

  /** Python's `p in s` for strings. */
  predicate Contains(s: string, p: string)
    decreases |s|
  {
    p <= s || (|s| > 0 && Contains(s[1..], p))
  }

  lemma {:induction false} ContainsChar(s: string, c: char)
    ensures Contains(s, [c]) <==> c in s
  {
    if |s| > 0 {
      ContainsChar(s[1..], c);
      assert c in s <==> s[0] == c || c in s[1..];
    }
  }

  /** An occurrence at a given position makes `p in s` true. */
  lemma {:induction false} ContainsAt(s: string, p: string, i: nat)
    requires i + |p| <= |s| && s[i..i + |p|] == p
    ensures Contains(s, p)
    decreases i
  {
    if i == 0 {
      assert p <= s;
    } else {
      assert s[1..][i - 1..i - 1 + |p|] == s[i..i + |p|];
      ContainsAt(s[1..], p, i - 1);
    }
  }

  /** An occurrence at position `i` of `s` lies inside every suffix `s[k..]` with `k <= i`. */
  lemma ContainsInSuffix(s: string, p: string, k: nat, i: nat)
    requires k <= i && i + |p| <= |s| && s[i..i + |p|] == p
    ensures Contains(s[k..], p)
  {
    assert s[k..][i - k..i - k + |p|] == s[i..i + |p|];
    ContainsAt(s[k..], p, i - k);
  }

  lemma {:induction false} ContainsInLeft(a: string, b: string, p: string)
    requires Contains(a, p)
    ensures Contains(a + b, p)
    decreases |a|
  {
    if p <= a {
      assert p <= a + b;
    } else {
      assert (a + b)[1..] == a[1..] + b;
      ContainsInLeft(a[1..], b, p);
    }
  }

  lemma {:induction false} ContainsInRight(a: string, b: string, p: string)
    requires Contains(b, p)
    ensures Contains(a + b, p)
    decreases |a|
  {
    if |a| == 0 {
      assert a + b == b;
    } else {
      assert (a + b)[1..] == a[1..] + b;
      ContainsInRight(a[1..], b, p);
    }
  }

  function Last<T>(s: seq<T>): T
    requires |s| > 0
  {
    s[|s| - 1]
  }

  // ---------------------------------------------------------------------
  // split(sep), join, replace
  // ---------------------------------------------------------------------

  /** Python's `s.split(sep)` for a non-empty separator: the pieces between the
      non-overlapping occurrences of `sep`, found from the left. */
  function Split(s: string, sep: string): (r: seq<string>)
    requires |sep| > 0
    ensures |r| >= 1
    decreases |s|
  {
    if |s| < |sep| then [s]
    else if sep <= s then [""] + Split(s[|sep|..], sep)
    else
      var rest := Split(s[1..], sep);
      [[s[0]] + rest[0]] + rest[1..]
  }

  /** Python's `sep.join(parts)`. */
  function Join(parts: seq<string>, sep: string): string {
    if |parts| == 0 then ""
    else if |parts| == 1 then parts[0]
    else parts[0] + sep + Join(parts[1..], sep)
  }

  /** A join of four parts, written out. */
  lemma Join4(a: string, b: string, c: string, d: string, sep: string)
    ensures Join([a, b, c, d], sep) == a + sep + b + sep + c + sep + d
  {
    assert [a, b, c, d][1..] == [b, c, d] && [b, c, d][1..] == [c, d] && [c, d][1..] == [d];
    assert Join([c, d], sep) == c + sep + d;
    assert Join([b, c, d], sep) == b + sep + (c + sep + d);
  }

  /** Python's `s.replace(pat, rep)`: every non-overlapping occurrence, from the left. */
  function ReplaceAll(s: string, pat: string, rep: string): (r: string)
    requires |pat| > 0
    ensures rep == "" ==> |r| <= |s|
    decreases |s|
  {
    if |s| < |pat| then s
    else if pat <= s then rep + ReplaceAll(s[|pat|..], pat, rep)
    else [s[0]] + ReplaceAll(s[1..], pat, rep)
  }

  /** `replace` is `split` followed by `join`, as Python documents it. */
  lemma {:induction false} ReplaceIsJoinOfSplit(s: string, pat: string, rep: string)
    requires |pat| > 0
    ensures ReplaceAll(s, pat, rep) == Join(Split(s, pat), rep)
    decreases |s|
  {
    if |s| < |pat| {
    } else if pat <= s {
      ReplaceIsJoinOfSplit(s[|pat|..], pat, rep);
      JoinEmptyFirst(Split(s[|pat|..], pat), rep);
    } else {
      ReplaceIsJoinOfSplit(s[1..], pat, rep);
      JoinConsFirst(s[0], Split(s[1..], pat), rep);
    }
  }

  /** An empty first piece puts a separator at the front. */
  lemma JoinEmptyFirst(rest: seq<string>, rep: string)
    requires |rest| >= 1
    ensures Join([""] + rest, rep) == rep + Join(rest, rep)
  {
    assert ([""] + rest)[1..] == rest;
    assert "" + rep + Join(rest, rep) == rep + Join(rest, rep);
  }

  /** A character put in front of the first piece is in front of the join. */
  lemma JoinConsFirst(c: char, rest: seq<string>, rep: string)
    requires |rest| >= 1
    ensures Join([[c] + rest[0]] + rest[1..], rep) == [c] + Join(rest, rep)
  {
    var parts := [[c] + rest[0]] + rest[1..];
    if |rest| == 1 {
      assert Join(parts, rep) == [c] + rest[0];
    } else {
      assert parts[1..] == rest[1..];
      assert Join(rest, rep) == rest[0] + rep + Join(rest[1..], rep);
      assert Join(parts, rep) == ([c] + rest[0]) + rep + Join(rest[1..], rep);
    }
  }

  lemma {:induction false} ReplaceSame(s: string, p: string)
    requires |p| > 0
    ensures ReplaceAll(s, p, p) == s
    decreases |s|
  {
    if |s| < |p| {
    } else if p <= s {
      ReplaceSame(s[|p|..], p);
      assert s == p + s[|p|..];
    } else {
      ReplaceSame(s[1..], p);
      assert s == [s[0]] + s[1..];
    }
  }

  /** Joining the pieces of a split with the same separator gives the string back. */
  lemma JoinSplit(s: string, sep: string)
    requires |sep| > 0
    ensures Join(Split(s, sep), sep) == s
  {
    ReplaceIsJoinOfSplit(s, sep, sep);
    ReplaceSame(s, sep);
  }

  /** A string without the separator splits into itself alone. */
  lemma {:induction false} SplitAbsent(s: string, sep: string)
    requires |sep| > 0 && !Contains(s, sep)
    ensures Split(s, sep) == [s]
    decreases |s|
  {
    if |s| >= |sep| {
      assert !(sep <= s);
      SplitAbsent(s[1..], sep);
      assert [s[0]] + s[1..] == s;
    }
  }

  /** A string without `pat` is left alone by `replace`. */
  lemma {:induction false} ReplaceAbsent(s: string, pat: string, rep: string)
    requires |pat| > 0 && !Contains(s, pat)
    ensures ReplaceAll(s, pat, rep) == s
    decreases |s|
  {
    if |s| >= |pat| {
      ReplaceAbsent(s[1..], pat, rep);
      assert s == [s[0]] + s[1..];
    }
  }

  /** A prefix without the first character of `pat` is copied unchanged by `replace`. */
  lemma {:induction false} ReplaceSkipsPrefix(a: string, t: string, pat: string, rep: string)
    requires |pat| > 0 && pat[0] !in a
    ensures ReplaceAll(a + t, pat, rep) == a + ReplaceAll(t, pat, rep)
    decreases |a|
  {
    if |a| == 0 {
      assert a + t == t;
    } else {
      assert (a + t)[1..] == a[1..] + t;
      ReplaceSkipsPrefix(a[1..], t, pat, rep);
      if |a + t| < |pat| {
        ReplaceAbsentShort(t, pat, rep);
      } else {
        assert !(pat <= a + t);
        assert ReplaceAll(a + t, pat, rep) == [a[0]] + ReplaceAll(a[1..] + t, pat, rep);
        assert a == [a[0]] + a[1..];
      }
    }
  }

  lemma ReplaceAbsentShort(t: string, pat: string, rep: string)
    requires |pat| > 0 && |t| < |pat|
    ensures ReplaceAll(t, pat, rep) == t
  {
  }

  /** With a one-character separator absent from `x`, splitting `x + sep + y` peels off `x`. */
  lemma {:induction false} SplitCons(x: string, c: char, y: string)
    requires c !in x
    ensures Split(x + [c] + y, [c]) == [x] + Split(y, [c])
    decreases |x|
  {
    var s := x + [c] + y;
    if |x| == 0 {
      assert s == [c] + y;
      assert s[1..] == y;
    } else {
      assert s[1..] == x[1..] + [c] + y;
      SplitCons(x[1..], c, y);
      assert s[0] == x[0] && x[0] in x;
      assert !([c] <= s);
      var rest := Split(s[1..], [c]);
      assert rest == [x[1..]] + Split(y, [c]);
      assert Split(s, [c]) == [[s[0]] + rest[0]] + rest[1..];
      assert [s[0]] + rest[0] == x;
    }
  }

  lemma {:induction false} SplitSingle(x: string, c: char)
    requires c !in x
    ensures Split(x, [c]) == [x]
  {
    ContainsChar(x, c);
    SplitAbsent(x, [c]);
  }

  /** Splitting on a one-character separator undoes a join with it, when no part holds it. */
  lemma {:induction false} SplitJoin(parts: seq<string>, c: char)
    requires |parts| >= 1
    requires forall i | 0 <= i < |parts| :: c !in parts[i]
    ensures Split(Join(parts, [c]), [c]) == parts
  {
    if |parts| == 1 {
      SplitSingle(parts[0], c);
    } else {
      SplitJoin(parts[1..], c);
      SplitCons(parts[0], c, Join(parts[1..], [c]));
      assert parts == [parts[0]] + parts[1..];
    }
  }

  /** No piece of a split on a one-character separator holds that character. */
  lemma {:induction false} SplitPiecesFree(s: string, c: char)
    ensures forall k | 0 <= k < |Split(s, [c])| :: c !in Split(s, [c])[k]
    decreases |s|
  {
    if |s| >= 1 {
      SplitPiecesFree(s[1..], c);
      if !([c] <= s) {
        assert s[0] != c;
      }
    }
  }

  lemma {:induction false} ShortNotContains(s: string, p: string)
    requires |s| < |p|
    ensures !Contains(s, p)
    decreases |s|
  {
    if |s| > 0 {
      ShortNotContains(s[1..], p);
    }
  }

  /** A split with a single piece returns the string itself. */
  lemma {:induction false} SplitOnePiece(s: string, sep: string)
    requires |sep| > 0 && |Split(s, sep)| == 1
    ensures Split(s, sep) == [s] && !Contains(s, sep)
    decreases |s|
  {
    if |s| < |sep| {
      ShortNotContains(s, sep);
    } else if sep <= s {
    } else {
      SplitOnePiece(s[1..], sep);
      assert [s[0]] + s[1..] == s;
    }
  }

  /** `sep` occurs in `s` right before its last `m` characters. */
  predicate SepBeforeTail(s: string, m: nat, sep: string) {
    m + |sep| <= |s| && s[|s| - m - |sep|..|s| - m] == sep
  }

  lemma SepBeforeTailOfSuffix(s: string, k: nat, m: nat, sep: string)
    requires k <= |s| && SepBeforeTail(s[k..], m, sep)
    ensures SepBeforeTail(s, m, sep)
  {
    assert s[k..][|s| - k - m - |sep|..|s| - k - m] == s[|s| - m - |sep|..|s| - m];
  }

  /** What `SplitLast` proves about the last piece of `s.split(sep)`. */
  predicate LastPieceFacts(s: string, sep: string)
    requires |sep| > 0
  {
    var p := Last(Split(s, sep));
    |p| <= |s| && p == s[|s| - |p|..] && !Contains(p, sep)
    && (|Split(s, sep)| == 1 ==> p == s)
    && (|Split(s, sep)| > 1 ==> SepBeforeTail(s, |p|, sep))
  }

  /** The last piece of `s.split(sep)` is the text after the last occurrence the split found:
      a suffix of `s` holding no `sep`, which is all of `s` when there is one piece and
      otherwise comes right after an occurrence of `sep`. */
  lemma {:induction false} SplitLast(s: string, sep: string)
    requires |sep| > 0
    ensures LastPieceFacts(s, sep)
    decreases |s|
  {
    if |s| < |sep| {
      ShortNotContains(s, sep);
    } else if sep <= s {
      SplitLast(s[|sep|..], sep);
      SplitLastAfterSep(s, sep);
    } else {
      SplitLast(s[1..], sep);
      SplitLastAfterChar(s, sep);
    }
  }

  lemma SplitLastAfterSep(s: string, sep: string)
    requires |sep| > 0 && |s| >= |sep| && sep <= s
    requires LastPieceFacts(s[|sep|..], sep)
    ensures LastPieceFacts(s, sep)
  {
    var rest := s[|sep|..];
    var p := Last(Split(rest, sep));
    assert Last(Split(s, sep)) == p;
    assert s[|s| - |p|..] == rest[|rest| - |p|..];
    if |Split(rest, sep)| == 1 {
      assert s[|s| - |p| - |sep|..|s| - |p|] == s[..|sep|];
    } else {
      SepBeforeTailOfSuffix(s, |sep|, |p|, sep);
    }
  }

  lemma SplitLastAfterChar(s: string, sep: string)
    requires |sep| > 0 && |s| >= |sep| && !(sep <= s)
    requires LastPieceFacts(s[1..], sep)
    ensures LastPieceFacts(s, sep)
  {
    var rest := Split(s[1..], sep);
    if |rest| == 1 {
      SplitOnePiece(s[1..], sep);
      assert [s[0]] + s[1..] == s;
      assert Last(Split(s, sep)) == s;
    } else {
      var p := Last(rest);
      assert Last(Split(s, sep)) == p;
      assert s[|s| - |p|..] == s[1..][|s| - 1 - |p|..];
      SepBeforeTailOfSuffix(s, 1, |p|, sep);
    }
  }

  // ---------------------------------------------------------------------
  // split() on white space
  // ---------------------------------------------------------------------

  /** Python's `s.split()` with no argument: the maximal runs of non-white-space characters. */
  function SplitWs(s: string): (r: seq<string>)
    ensures forall i | 0 <= i < |r| :: |r[i]| > 0 && NoSpace(r[i])
  {
    WordsShape(s, "");
    Words(s, "")
  }

  /** The words of `s`, where `cur` is the part of a word already read. */
  function Words(s: string, cur: string): seq<string>
    decreases |s|
  {
    if |s| == 0 then (if |cur| == 0 then [] else [cur])
    else if IsSpace(s[0]) then (if |cur| == 0 then [] else [cur]) + Words(s[1..], "")
    else Words(s[1..], cur + [s[0]])
  }

  /** The characters of `s` that are not white space, in order. */
  function Squeeze(s: string): (r: string)
    ensures NoSpace(r)
  {
    if |s| == 0 then ""
    else (if IsSpace(s[0]) then "" else [s[0]]) + Squeeze(s[1..])
  }

  function Concat(ws: seq<string>): string {
    if |ws| == 0 then "" else ws[0] + Concat(ws[1..])
  }

  /** The longest prefix of `s` without white space. */
  function LeadingRun(s: string): (w: string)
    ensures w <= s && NoSpace(w)
    ensures |w| == |s| || IsSpace(s[|w|])
  {
    if |s| == 0 || IsSpace(s[0]) then "" else [s[0]] + LeadingRun(s[1..])
  }

  lemma {:induction false} LeadingRunAppend(x: string, y: string)
    requires NoSpace(x) && (|y| == 0 || IsSpace(y[0]))
    ensures LeadingRun(x + y) == x
  {
    if |x| == 0 {
      assert x + y == y;
    } else {
      assert (x + y)[1..] == x[1..] + y;
      LeadingRunAppend(x[1..], y);
      assert x == [x[0]] + x[1..];
    }
  }

  lemma {:induction false} ConcatAppend(a: seq<string>, b: seq<string>)
    ensures Concat(a + b) == Concat(a) + Concat(b)
  {
    if |a| == 0 {
      assert a + b == b;
    } else {
      assert (a + b)[1..] == a[1..] + b;
      ConcatAppend(a[1..], b);
    }
  }

  /** Every word is non-empty and free of white space, and the words together are
      exactly the non-white-space characters. */
  lemma {:induction false} WordsShape(s: string, cur: string)
    requires NoSpace(cur)
    ensures forall i | 0 <= i < |Words(s, cur)| :: |Words(s, cur)[i]| > 0 && NoSpace(Words(s, cur)[i])
    ensures Concat(Words(s, cur)) == cur + Squeeze(s)
    decreases |s|
  {
    if |s| == 0 {
    } else if IsSpace(s[0]) {
      WordsShape(s[1..], "");
      var head: seq<string> := if |cur| == 0 then [] else [cur];
      ConcatAppend(head, Words(s[1..], ""));
      assert Concat(head) == cur;
    } else {
      WordsShape(s[1..], cur + [s[0]]);
      assert cur + [s[0]] + Squeeze(s[1..]) == cur + ([s[0]] + Squeeze(s[1..]));
    }
  }

  lemma SplitWsShape(s: string)
    ensures forall i | 0 <= i < |SplitWs(s)| :: |SplitWs(s)[i]| > 0 && NoSpace(SplitWs(s)[i])
    ensures Concat(SplitWs(s)) == Squeeze(s)
  {
    WordsShape(s, "");
  }

  /** Reading a run without white space only extends the current word. */
  lemma {:induction false} WordsAbsorb(x: string, t: string, cur: string)
    requires NoSpace(x)
    ensures Words(x + t, cur) == Words(t, cur + x)
    decreases |x|
  {
    if |x| == 0 {
      assert x + t == t;
      assert cur + x == cur;
    } else {
      assert (x + t)[1..] == x[1..] + t;
      WordsAbsorb(x[1..], t, cur + [x[0]]);
      assert cur + [x[0]] + x[1..] == cur + x;
    }
  }

  /** The first word of a string that starts with a non-space character is its leading run,
      and the remaining words are the words of what follows that run. */
  lemma SplitWsFirst(s: string)
    requires |s| > 0 && !IsSpace(s[0])
    ensures SplitWs(s) == [LeadingRun(s)] + SplitWs(s[|LeadingRun(s)|..])
  {
    var w := LeadingRun(s);
    var t := s[|w|..];
    assert s == w + t;
    WordsAbsorb(w, t, "");
    assert "" + w == w;
    if |t| > 0 {
      assert IsSpace(t[0]);
    }
  }

  /** Splitting words joined by single spaces gives the words back. */
  lemma {:induction false} SplitWsJoin(ws: seq<string>)
    requires forall i | 0 <= i < |ws| :: |ws[i]| > 0 && NoSpace(ws[i])
    ensures SplitWs(Join(ws, " ")) == ws
  {
    if |ws| == 0 {
    } else if |ws| == 1 {
      WordsAbsorb(ws[0], "", "");
      assert ws[0] + "" == ws[0];
      assert "" + ws[0] == ws[0];
    } else {
      var rest := Join(ws[1..], " ");
      SplitWsJoin(ws[1..]);
      assert Join(ws, " ") == ws[0] + (" " + rest);
      WordsAbsorb(ws[0], " " + rest, "");
      assert "" + ws[0] == ws[0];
      assert (" " + rest)[1..] == rest;
      assert ws == [ws[0]] + ws[1..];
    }
  }

  // ---------------------------------------------------------------------
  // lower()
  // ---------------------------------------------------------------------

  /** `lower()` on one character, for the ASCII and Latin-1 capitals. */
  function LowerChar(c: char): char {
    if 'A' <= c <= 'Z' || ('\U{c0}' <= c <= '\U{de}' && c != '\U{d7}') then (c as int + 32) as char else c
  }

  function Lower(s: string): (r: string)
    ensures |r| == |s| && forall i | 0 <= i < |s| :: r[i] == LowerChar(s[i])
  {
    seq(|s|, i requires 0 <= i < |s| => LowerChar(s[i]))
  }

  lemma LowerIdempotent(s: string)
    ensures Lower(Lower(s)) == Lower(s)
  {
  }

  lemma LowerAppend(a: string, b: string)
    ensures Lower(a + b) == Lower(a) + Lower(b)
  {
  }

  // ---------------------------------------------------------------------
  // str(n) for naturals
  // ---------------------------------------------------------------------

  predicate IsDigit(c: char) {
    '0' <= c <= '9'
  }

  function DigitChar(d: nat): (c: char)
    requires d < 10
    ensures IsDigit(c)
  {
    (48 + d) as char
  }

  /** Python's `str(n)` (or `f"{n}"`) for a natural number: its decimal digits. */
  function NatToString(n: nat): (r: string)
    ensures |r| > 0 && forall i | 0 <= i < |r| :: IsDigit(r[i])
    ensures r[0] == '0' ==> n == 0
  {
    if n < 10 then [DigitChar(n)] else NatToString(n / 10) + [DigitChar(n % 10)]
  }

  function ParseDigits(s: string): nat
    requires forall i | 0 <= i < |s| :: IsDigit(s[i])
  {
    if |s| == 0 then 0
    else
      assert IsDigit(s[|s| - 1]);
      ParseDigits(s[..|s| - 1]) * 10 + (s[|s| - 1] as int - 48)
  }

  /** The decimal text of `n` reads back as `n`. */
  lemma {:induction false} NatToStringRoundTrip(n: nat)
    ensures ParseDigits(NatToString(n)) == n
  {
    if n >= 10 {
      NatToStringRoundTrip(n / 10);
      var r := NatToString(n);
      assert r[..|r| - 1] == NatToString(n / 10);
    }
  }

  /** Python's `str(n)` for any integer: a minus sign before the digits of a negative number. */
  function IntToString(n: int): (r: string)
    ensures |r| > 0
    ensures n >= 0 ==> r == NatToString(n)
    ensures n < 0 ==> r[0] == '-' && r[1..] == NatToString(-n)
  {
    if n < 0 then "-" + NatToString(-n) else NatToString(n)
  }
}
