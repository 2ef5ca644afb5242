/**
 Lines of a text file, as iterating over a file object yields them: every
 line is non-empty, carries no line feed except possibly as its last
 character, and every line but the last ends in a line feed.
 */
module Lines {

  /** A line ends in a line feed. */
  predicate Terminated(line: string)
  {
    |line| > 0 && line[|line| - 1] == '\n'
  }

  /** A non-empty piece of text with no line feed before its last character. */
  predicate IsLine(line: string)
  {
    |line| > 0 && forall j | 0 <= j < |line| - 1 :: line[j] != '\n'
  }

  /** A sequence of lines as produced by splitting a text at its line feeds. */
  predicate WellSplit(lines: seq<string>)
  {
    && (forall i | 0 <= i < |lines| :: IsLine(lines[i]))
    && (forall i | 0 <= i < |lines| - 1 :: Terminated(lines[i]))
  }

  /** The in-order concatenation of `lines`. */
  function Join(lines: seq<string>): (s: string)
  {
    if lines == [] then [] else lines[0] + Join(lines[1..])
  }

  lemma {:induction false} JoinAppend(a: seq<string>, b: seq<string>)
    ensures Join(a + b) == Join(a) + Join(b)
    decreases |a|
  {
    if a == [] {
      assert a + b == b;
    } else {
      assert (a + b)[1..] == a[1..] + b;
      JoinAppend(a[1..], b);
    }
  }

  /** Joining non-empty lines gives the empty text only for no lines, and
      otherwise a text that ends with the last line's last character. */
  lemma {:induction false} JoinLast(lines: seq<string>)
    requires forall i | 0 <= i < |lines| :: |lines[i]| > 0
    ensures Join(lines) == [] <==> lines == []
    ensures lines != [] ==> |Join(lines)| > 0 && Join(lines)[|Join(lines)| - 1] == lines[|lines| - 1][|lines[|lines| - 1]| - 1]
  {
    if lines != [] {
      JoinLast(lines[1..]);
    }
  }

  /** Index just past the line feed that ends the line starting at `i`, or
      the end of the text when no line feed follows. */
  function LineEnd(s: string, i: nat): (k: nat)
    requires i < |s|
    ensures i < k <= |s|
    ensures forall j | i <= j < k - 1 :: s[j] != '\n'
    ensures k == |s| || s[k - 1] == '\n'
    decreases |s| - i
  {
    if s[i] == '\n' || i == |s| - 1 then i + 1 else LineEnd(s, i + 1)
  }

  /** The lines of `s`, in order. */
  function SplitLines(s: string): (lines: seq<string>)
    ensures WellSplit(lines)
    ensures Join(lines) == s
    decreases |s|
  {
    if s == [] then []
    else
      var k := LineEnd(s, 0);
      var rest := SplitLines(s[k..]);
      assert IsLine(s[..k]);
      assert rest != [] ==> k < |s| && Terminated(s[..k]);
      assert s[..k] + s[k..] == s;
      [s[..k]] + rest
  }

  /** The first line of `l + t` is `l` when `l` is a line and either ends
      in a line feed or nothing follows it. */
  lemma FirstLine(l: string, t: string)
    requires IsLine(l)
    requires Terminated(l) || t == []
    ensures LineEnd(l + t, 0) == |l|
  {
    var s := l + t;
    assert forall j | 0 <= j < |l| :: s[j] == l[j];
  }

  /** Splitting the concatenation of well-split lines gives the lines back. */
  lemma {:induction false} SplitJoin(lines: seq<string>)
    requires WellSplit(lines)
    ensures SplitLines(Join(lines)) == lines
  {
    if lines != [] {
      var l := lines[0];
      var rest := lines[1..];
      assert WellSplit(rest) by {
        forall i | 0 <= i < |rest| ensures IsLine(rest[i]) {
          assert rest[i] == lines[i + 1];
        }
        forall i | 0 <= i < |rest| - 1 ensures Terminated(rest[i]) {
          assert rest[i] == lines[i + 1];
        }
      }
      assert IsLine(l);
      assert rest != [] ==> Terminated(l);
      JoinLast(rest);
      FirstLine(l, Join(rest));
      var s := Join(lines);
      assert s == l + Join(rest);
      assert s[..|l|] == l;
      assert s[|l|..] == Join(rest);
      SplitJoin(rest);
    }
  }
}
