/**
 * The filter both instance managers and the launcher apply to a command file,
 * and the monitor editor to its configuration file: every line is stripped,
 * and blank lines and comment lines (starting with `#`) are dropped.
 */
module CommandLines {
  import opened Text

  /** A line that survives the filter, in the form it is kept: stripped, not blank, not a comment. */
  predicate IsKept(s: string) {
    s != "" && Stripped(s) && s[0] != '#'
  }

  /** Whether the raw line `line` is kept. */
  predicate Keeps(line: string) {
    Strip(line) != "" && !StartsWith(Strip(line), "#")
  }

  /** The stripped lines that are neither blank nor comments, in file order. */
  function CommandList(lines: seq<string>): (r: seq<string>)
    ensures |r| <= |lines|
    ensures forall k | 0 <= k < |r| :: IsKept(r[k])
  {
    if |lines| == 0 then []
    else (if Keeps(lines[0]) then [Strip(lines[0])] else []) + CommandList(lines[1..])
  }

  lemma {:induction false} CommandListAppend(a: seq<string>, b: seq<string>)
    ensures CommandList(a + b) == CommandList(a) + CommandList(b)
  {
    if |a| == 0 {
      assert a + b == b;
    } else {
      assert (a + b)[1..] == a[1..] + b;
      CommandListAppend(a[1..], b);
    }
  }

  /** A kept line is kept unchanged. */
  lemma KeptLine(s: string)
    requires IsKept(s)
    ensures Keeps(s) && Strip(s) == s
  {
    StripStripped(s);
  }

  /** Lines that are already kept pass through the filter unchanged and in order. */
  lemma {:induction false} CommandListOfKept(lines: seq<string>)
    requires forall k | 0 <= k < |lines| :: IsKept(lines[k])
    ensures CommandList(lines) == lines
  {
    if |lines| > 0 {
      var rest := lines[1..];
      assert lines == [lines[0]] + rest;
      assert forall k | 0 <= k < |rest| :: IsKept(rest[k]) by {
        forall k | 0 <= k < |rest| ensures IsKept(rest[k]) {
          assert rest[k] == lines[k + 1];
        }
      }
      CommandListOfKept(rest);
      KeptLine(lines[0]);
      assert CommandList(lines) == [lines[0]] + CommandList(rest);
    }
  }

  /** Filtering twice is filtering once. */
  lemma CommandListIdempotent(lines: seq<string>)
    ensures CommandList(CommandList(lines)) == CommandList(lines)
  {
    CommandListOfKept(CommandList(lines));
  }

  /** A comment line, whatever white space surrounds it, contributes nothing. */
  lemma CommentDropped(a: string, c: string, b: string)
    requires AllSpace(a) && AllSpace(b) && |c| > 0 && c[0] == '#' && Stripped(c)
    ensures CommandList([a + c + b]) == []
  {
    StripSurrounded(a, c, b);
  }
}
